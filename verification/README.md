# Verified models of the network programming sources

Dafny models of the parts of UNPv13e (the sources of *UNIX Network Programming*, volume 1, third edition) that
hold protocol state, share data between processes, threads or signal handlers, or do delicate work on bytes and
text. Each file models one component in the form the C code has: classes and arrays for what is updated in
place, loops with invariants for loops, functions for what only computes, and state machines with one step per
visible action for what runs concurrently.

| file | component |
|---|---|
| DgSendRecv.dfy, Rtt.dfy | request and reply over UDP with retransmission, and the timer behind it |
| InetPton4.dfy, InetPton6.dfy, InetLanguage.dfy, InetNtop.dfy, InetAton.dfy, InetText.dfy | address text forms, both ways |
| GaList.dfy, GaServ.dfy | the linked list behind `getaddrinfo`: append, clone, fill in ports |
| Dispatcher.dfy | the preforked server that passes descriptors to its children |
| ThreadPool.dfy | the prethreaded server: circular buffer, mutex, condition variable |
| SignalQueue.dfy | the signal-driven datagram echo server |
| Relay.dfy | the non-blocking client with two buffers and a half-close |
| Readline.dfy | buffered and one-byte line reading |
| Checksum.dfy | the Internet checksum and the UDP datagram that carries one |
| SelectLoop.dfy | the client tables of two `select` servers |
| WebScheduler.dfy | the scheduler of parallel non-blocking connections |
| Common.dfy | types that several of them share |

What the outside world decides is arbitrary: what a read or write returns, what `select` reports, which child
or thread runs next, when a signal arrives, what the network loses, repeats or delays, what the clock shows and
what the services database knows are parameters, scripts or nondeterministic choices, and the theorems hold for
all of them. Server loops run forever; the models take the number of turns as a parameter and the results hold
for every number.

Where code and comment disagree the model follows the code. The comment of `inet_pton6` says that `::` in a full
address is ignored; the code clears what follows it (`InetPton6.ElisionInFullAddress`). Five properties hold
only under a condition; the condition is shown to be exact and a failing input is given: that `::` in a full
address is ignored (`InetPton6.ElisionInFullAddress`, `InetPton6.ElisionIsNotIgnored`), that an answer belongs
to its call (`DgSendRecv.AnswersAreOwn`, `DgSendRecv.StaleAnswerAfterWrap`), that the checksum is the one of
RFC 1071 (`Checksum.InCksum`, `Checksum.LongerBufferCanFail`), that `inet_pton4` accepts what `inet_aton` does
(`InetAton.PtonIsStricter`, `InetAton.OnlyAtonAccepts`), and that the web client has something to wait for
(`WebScheduler.Scheduler.SelectWaits`, `WebScheduler.NoneAllowed`).

Every lemma carries `{:induction false}`: its proof is the one written out. `dafny verify dfyconfig.toml` checks
the project.

## Model

| member | source | states |
|---|---|---|
| `DgSendRecv.AnswersAreOwn` | unpv13e/rtt/dg_send_recv.c:26-92 | in every run of up to 2^32 calls, over a network that loses, repeats, delays and reorders: a call is answered at most once, the answer echoes one of its own transmissions, and the sample taken is the milliseconds (mod 2^32) since that very transmission, across retransmissions and re-initialisation |
| `DgSendRecv.StaleAnswerAfterWrap` | unpv13e/rtt/dg_send_recv.c:32-86 | the bound is exact: a run of 2^32 + 1 calls exists in which the last takes a late echo of the first for its answer |
| `DgSendRecv.TimersAreBounded` | unpv13e/rtt/dg_send_recv.c:54-79 | in every run each request is transmitted at most 4 times, alarms are 2 to 480 seconds (at most 60 the first time), the estimators stay within the samples and the timeout within [2, 60] between requests |
| `DgSendRecv.TimersBackOff` | unpv13e/rtt/dg_send_recv.c:56-79 | in every run the transmissions of a call are numbered 0 to 3 in order, number n is made under 2^n times the timeout of the first, and each alarm is the whole second nearest to that timeout |
| `DgSendRecv.StepKeepsInv` | unpv13e/rtt/dg_send_recv.c:26-93 | every step of client, server and network keeps: sequence number, header on the wire, timestamp base, number of transmissions, accepted answers |
| `DgSendRecv.RunKeepsInv` | unpv13e/rtt/dg_send_recv.c:26-93 | the invariant holds after any sequence of possible steps |
| `DgSendRecv.ReceiveKeepsInv` | unpv13e/rtt/dg_send_recv.c:81-92 | accepting a datagram with the right sequence number gives a sample equal to the time since the transmission it echoes, when that is one of the call's own |
| `DgSendRecv.AlarmKeepsInv` | unpv13e/rtt/dg_send_recv.c:68-79 | a timeout keeps the invariant, the numbering and the doubling of the timeout among it |
| `DgSendRecv.CallKeepsInv` | unpv13e/rtt/dg_send_recv.c:26-63 | a new call re-initialises only if needed, numbers its request and transmits it once |
| `DgSendRecv.CallTransmits` | unpv13e/rtt/dg_send_recv.c:26-63 | a call makes one transmission with the next number and a true timestamp, under the timeout that the estimators of the call before left, or 3 seconds after a call that gave up |
| `DgSendRecv.AlarmRetransmits` | unpv13e/rtt/dg_send_recv.c:68-79 | the first three alarms each make one transmission with the same number, a new timestamp and twice the timeout; the fourth ends the call and drops the estimators |
| `DgSendRecv.OwnEchoIsTaken` | unpv13e/rtt/dg_send_recv.c:81-92 | a whole echo of any transmission of the waiting call ends its wait and is its answer, with the elapsed milliseconds as sample |
| `DgSendRecv.ReceiveTakes` | unpv13e/rtt/dg_send_recv.c:86-90 | so does any whole header with the call's number, and the estimate moves by an eighth towards the sample |
| `DgSendRecv.ReceiveIgnores` | unpv13e/rtt/dg_send_recv.c:86 | a short datagram or another number changes nothing |
| `DgSendRecv.Requester.Begin` | unpv13e/rtt/dg_send_recv.c:26-54 | the next number; the estimators are kept from the call before, or are fresh, with a base of this second, when there was none or it gave up |
| `DgSendRecv.Requester.SendAgain` | unpv13e/rtt/dg_send_recv.c:56-63 | what goes out has the request's number and the milliseconds since the base, and the alarm is the whole second nearest to the timeout |
| `DgSendRecv.Requester.OnAlarm` | unpv13e/rtt/dg_send_recv.c:68-79 | after three retransmissions it gives up and forgets the estimators; before that it doubles the timeout and sends again |
| `DgSendRecv.Requester.OnDatagram` | unpv13e/rtt/dg_send_recv.c:81-92 | the receive loop ends exactly on at least 8 bytes with the request's number; then the estimators take the sample and the caller's buffer holds the data |
| `DgSendRecv.Requester.DgSendRecv` | unpv13e/rtt/dg_send_recv.c:19-93 | for any script of events: it returns a reply at the first whole datagram with its number, gives up at the fourth alarm, and otherwise waits; the data of the reply is in the caller's buffer, and it has sent one packet and one more per earlier alarm, each with its number and the caller's data, as the machine does |
| `Rtt.MinMaxIsNearest` | unpv13e/lib/rtt.c:12-20 | of all values in [2, 60] the result is the one nearest to what was given |
| `Rtt.InitIsReady` | unpv13e/lib/rtt.c:22-35 | after initialisation the timeout is exactly 3 seconds |
| `Rtt.StopKeepsEstimates` | unpv13e/lib/rtt.c:80-102 | no sample takes the smoothed value past the largest sample, or the deviation past the larger of 0.75 and that; the timeout is in [2, 60] |
| `Rtt.StopIsJacobson` | unpv13e/lib/rtt.c:80-102 | for every state and sample: gains of 1/8 and 1/4, the deviation taken from the old estimate, and a timeout of estimate plus four deviations within [2, 60] |
| `Rtt.SteadySamplesConverge` | unpv13e/lib/rtt.c:93-94 | under k equal samples the distance of the smoothed value to the sample shrinks by (7/8)^k |
| `Rtt.ExactEstimateDecays` | unpv13e/lib/rtt.c:96-101 | once the smoothed value is exact, the deviation decays by (3/4)^k, and the timeout is the clamped sum of the value and four times that |
| `Rtt.TimeoutKeepsRequest` | unpv13e/lib/rtt.c:111-119 | each timeout at most doubles the bound on the timer, and the fourth gives up |
| `Rtt.AlarmBounds` | unpv13e/lib/rtt.c:62-67 | every alarm of a request is between 2 and 480 seconds, never 0 |
| `Rtt.TimestampsMeasureElapsed` | unpv13e/lib/rtt.c:45-54 | two timestamps under one base differ by the elapsed milliseconds mod 2^32 |
| `Rtt.RttInfo.RttInit` | unpv13e/lib/rtt.c:22-35 | timeout 3 seconds, estimate 0, deviation 0.75, base this second, retransmission count untouched |
| `Rtt.RttInfo.RttTs` | unpv13e/lib/rtt.c:45-54 | a 32-bit number congruent, mod 2^32, to the milliseconds since the base second, whatever the clock shows |
| `Rtt.RttInfo.RttNewpack` | unpv13e/lib/rtt.c:56-60 | only the retransmission count is reset |
| `Rtt.RttInfo.RttStart` | unpv13e/lib/rtt.c:62-67 | the whole second nearest to the timeout, the upper one half way between two |
| `Rtt.RttInfo.RttStop` | unpv13e/lib/rtt.c:80-102 | the in-place updates give 7/8 of the old estimate plus 1/8 of the sample, 3/4 of the old deviation plus 1/4 of the distance of the sample to the old estimate, and the timeout of these |
| `Rtt.RttInfo.RttTimeout` | unpv13e/lib/rtt.c:111-119 | the timeout is doubled and the count raised, nothing else changes, and -1 is returned exactly past the third retransmission |
| `InetNtop.Ntop6` | unpv13e/libfree/inet_ntop.c:132-187 | for every 16 bytes: the elided run is the leftmost longest of at least two zero words; the text is the one with that run elided, in lower case, with a dotted quad exactly for mapped and compatible addresses; it fits the 46 characters of tmp with its terminator; and inet_pton6 reads it back as the same 16 bytes |
| `InetNtop.WhichForm` | unpv13e/libfree/inet_ntop.c:173-180 | ten zero bytes and two of ones print as two colons, ffff and the dotted quad; twelve zero bytes not followed by two more as two colons and the quad; nothing else has a dot |
| `InetNtop.PlainText` | unpv13e/libfree/inet_ntop.c:181 | the text has only decimal digits, lower-case letters a to f, colons and dots |
| `InetNtop.FindRun` | unpv13e/libfree/inet_ntop.c:135-156 | the run found is the leftmost of the longest, and there is one exactly when two zero words are next to each other |
| `InetNtop.ElidedIsUnique` | unpv13e/libfree/inet_ntop.c:135-156 | that choice determines the run |
| `InetNtop.TextRoundTrip` | unpv13e/libfree/inet_ntop.c:161-187 | whichever zero run is elided, and in the IPv4-compatible and IPv4-mapped forms, the text reads back as the address |
| `InetNtop.FmtIsRendered` | unpv13e/libfree/inet_ntop.c:161-187 | what the loop prints word by word is the address with its run elided: prefix, two colons, suffix, at either end too |
| `InetNtop.TextFits` | unpv13e/libfree/inet_ntop.c:122-187 | the text and its terminator never exceed 46 characters |
| `InetNtop.FillWords` | unpv13e/libfree/inet_ntop.c:132-134 | the byte-by-byte copy makes big-endian words |
| `InetNtop.Format` | unpv13e/libfree/inet_ntop.c:161-187 | the in-place formatting writes that text and its terminator, and nothing past the end of tmp |
| `InetNtop.DottedRoundTrip` | unpv13e/libfree/inet_ntop.c:91-94 | what inet_ntop4 prints, inet_pton4 reads back |
| `InetNtop.DottedLength` | unpv13e/libfree/inet_ntop.c:92-94 | the dotted quad has at most 15 characters |
| `InetText.HexForm` | unpv13e/libfree/inet_ntop.c:181 | a group is printed in lower case without leading zeros |
| `InetText.DecForm` | unpv13e/libfree/inet_ntop.c:91-94 | an octet is printed without leading zeros |
| `InetPton4.Pton4` | unpv13e/libfree/inet_pton.c:86-125 | accepts exactly the dotted quads and writes their four bytes; otherwise the destination is untouched |
| `InetPton4.ScanMeaning` | unpv13e/libfree/inet_pton.c:98-119 | the character scan accepts exactly four non-empty decimal groups separated by single dots, each at most 255, leading zeros allowed |
| `InetPton4.QuadsAreThese` | unpv13e/libfree/inet_pton.c:98-121 | exactly which strings are dotted quads, and which four bytes they are |
| `InetPton4.ScanQuad` | unpv13e/libfree/inet_pton.c:95-121 | the loop over tmp is that scan |
| `InetPton6.Pton6` | unpv13e/libfree/inet_pton.c:140-224 | accepts exactly when the scan, the shift and the length test do, writes the 16 bytes, and otherwise leaves the destination untouched |
| `InetPton6.ShiftInPlace` | unpv13e/libfree/inet_pton.c:205-218 | the overlapping in-place shift yields prefix, zeros, suffix at the end, 16 bytes in all; with nothing to fill the suffix is cleared |
| `InetPton6.OneMoved` | unpv13e/libfree/inet_pton.c:213-216 | one turn of the shift |
| `InetPton6.ScanInto` | unpv13e/libfree/inet_pton.c:152-204 | the loop fills tmp as the scan says and leaves the rest zero |
| `InetPton6.FullForm` | unpv13e/libfree/inet_pton.c:162-220 | eight hexadecimal groups are accepted as their 16 bytes |
| `InetPton6.ElidedForm` | unpv13e/libfree/inet_pton.c:162-220 | two colons stand for exactly the groups that are missing, wherever they are |
| `InetPton6.FullFormWithQuad` | unpv13e/libfree/inet_pton.c:191-196 | six groups and a dotted quad |
| `InetPton6.ElidedThenQuad` | unpv13e/libfree/inet_pton.c:191-218 | groups, two colons and a dotted quad |
| `InetPton6.ElidedFormWithQuad` | unpv13e/libfree/inet_pton.c:191-218 | groups, two colons, groups and a dotted quad |
| `InetPton6.ElisionInFullAddress` | unpv13e/libfree/inet_pton.c:205-218 | for every text that spells out 16 bytes and holds two colons in a row: what follows them is cleared, and they are ignored, as the comment at line 134 says, exactly when what follows is all zeros |
| `InetPton6.ElisionInFullGroups` | unpv13e/libfree/inet_pton.c:205-218 | the same for eight groups, in terms of the groups |
| `InetPton6.ElisionInFullQuad` | unpv13e/libfree/inet_pton.c:191-218 | the same for six groups and a dotted quad |
| `InetPton6.ElisionIsNotIgnored` | unpv13e/libfree/inet_pton.c:205-218 | a text where it fails: two colons before eight ones give the zero address |
| `InetPton6.TrailingColon` | unpv13e/libfree/inet_pton.c:175-190 | one colon after eight groups is accepted and changes nothing |
| `InetText.XDigitsCount` | unpv13e/libfree/inet_pton.c:145-169 | each digit of the lower-case string and of the upper-case string has its position as its value |
| `InetText.XDigitsAreThose` | unpv13e/libfree/inet_pton.c:165-167 | no other character is a digit |
| `InetPton6.CaseIsIgnored` | unpv13e/libfree/inet_pton.c:165-169 | for every text, the case of the hexadecimal letters makes no difference |
| `InetPton6.GroupsAreThese` | unpv13e/libfree/inet_pton.c:165-172 | a group is any number of hexadecimal digits of value below 2^16 |
| `InetPton6.GroupBytes` | unpv13e/libfree/inet_pton.c:185-186 | each group gives two bytes, the high one first |
| `InetLanguage.PtonDenotes` | unpv13e/libfree/inet_pton.c:152-220 | for every string, which bytes it spells and where its zeros go, and so exactly what is accepted and as which address, stated on the fields between the colons: groups, at most one empty field for the zeros, and a last field that is empty, a group or a dotted quad |
| `InetLanguage.ScanSpells` | unpv13e/libfree/inet_pton.c:162-204 | from any state of the scan, what it gathers is what the remaining fields spell |
| `InetLanguage.QuadHasNoColon` | unpv13e/libfree/inet_pton.c:191-196 | a dotted quad is one field and never a hexadecimal group, so the early break loses nothing |
| `InetLanguage.TooLargeForQuad` | unpv13e/libfree/inet_pton.c:168-171 | a run of hexadecimal digits too large for a group does not begin a dotted quad, so rejecting it early is right |
| `InetAton.Aton` | unpv13e/libfree/inet_aton.c:22-75 | accepts exactly at most four groups of digits, empty ones included, of value at most 255 once wrapped to an unsigned long; missing groups are zeros at the end; the address is stored in network byte order if a place is given and nothing is stored on failure; on a dotted quad it stores the bytes inet_pton4 does |
| `InetAton.AtonTakesThese` | unpv13e/libfree/inet_aton.c:28-62 | exactly which strings are accepted, empty groups and wrapped ones included |
| `InetAton.MissingGroupsAreZeros` | unpv13e/libfree/inet_aton.c:55-67 | the groups given are the leading bytes of the address, those missing zeros at its end |
| `InetAton.AtonMeaning` | unpv13e/libfree/inet_aton.c:28-67 | the character scan against the groups of the string |
| `InetAton.AtonLoop` | unpv13e/libfree/inet_aton.c:28-67 | the loop is that scan |
| `InetAton.AddressFits` | unpv13e/libfree/inet_aton.c:55-67 | whatever the string, the accumulated address has 32 bits |
| `InetAton.UlongValueIsMod` | unpv13e/libfree/inet_aton.c:42 | the wrapped accumulator is the decimal value modulo the width |
| `InetAton.AtonAgreesOnQuads` | unpv13e/libfree/inet_aton.c:28-74 | every string inet_pton4 accepts, inet_aton accepts with the same address |
| `InetAton.PtonIsStricter` | unpv13e/libfree/inet_aton.c:28-74 | of the strings inet_aton accepts, inet_pton4 accepts exactly those with four non-empty groups none of which wrapped around |
| `InetAton.OnlyAtonAccepts` | unpv13e/libfree/inet_aton.c:64-67 | a string where they part: 1.2.3 is 1.2.3.0 to inet_aton and nothing to inet_pton4 |
| `GaList.GaPort` | unpv13e/libgai/ga_port.c:30-65 | the list becomes what the specification says, stays acyclic, no two entries share an address object, whatever is new is freshly allocated, and the count is that of the ports filled in |
| `GaList.GaClone` | unpv13e/libgai/ga_clone.c:8-30 | a copy of the entry goes right after it: same family, type, protocol and length, clone flag off, and an address object of its own with the same family, host and port; all else is unchanged |
| `GaList.AiStruct` | unpv13e/libgai/ga_aistruct.c:8-88 | for all three families: the new entry is appended, with its own address object, and is marked for cloning exactly when no socket type is asked for; a path that does not fit is an error, and then the entry is linked in without an address |
| `GaList.InsertAfter` | unpv13e/libgai/ga_clone.c:16-17 | one changed pointer inserts a node and keeps the list a list |
| `GaList.FillPort` | unpv13e/libgai/ga_port.c:47-62 | only the socket type and port of one entry change, and the port is counted when the family has one |
| `GaList.PortClone` | unpv13e/libgai/ga_port.c:38-42 | an entry whose type is taken is cloned and the clone, not the entry, is filled in |
| `GaList.WalkStep` | unpv13e/libgai/ga_port.c:37-63 | one turn of the walk, which skips the clone it has just made |
| `GaServ.PortsExpand` | unpv13e/libgai/ga_port.c:8-65 | any sequence of calls with distinct non-zero types leaves one group per address in the original order, and each call finds every entry that has a port |
| `GaServ.OneEntryPerAddressAndType` | unpv13e/libgai/ga_port.c:8-65 | N addresses and M calls give N * M entries; the entry of address i and call q is at i * M plus its slot, with the host, family, protocol and length of the address and the type and port of the call |
| `GaServ.SlotsCover` | unpv13e/libgai/ga_port.c:8-65 | every position belongs to one address and one call, so no pair has two entries |
| `GaServ.RunPlan` | unpv13e/libgai/ga_port.c:8-65 | on the list itself, any calls with distinct non-zero types: each returns the number of entries with a port, and they leave an acyclic list without shared address objects, with exactly one entry per address and type, grouped by address in the original order |
| `GaServ.BuildList` | unpv13e/libgai/getaddrinfo.c:132-137 | one entry per address found, in order, as a list with address objects of its own |
| `GaServ.MadeUnused` | unpv13e/libgai/ga_aistruct.c:21-22 | entries made without a socket type are all to be used first and cloned afterwards |
| `GaServ.AddressesAndTypes` | unpv13e/libgai/ga_port.c:8-65 | from N addresses through any such calls: every call returns N, and the finished list has one entry per address and type |
| `GaServ.GroupStep` | unpv13e/libgai/ga_port.c:38-47 | the first call uses the entry itself, each further one puts a clone right after it |
| `GaServ.OthersLeftAlone` | unpv13e/libgai/ga_port.c:44-45 | entries of another type that are not to be cloned are left alone and not counted |
| `GaServ.GaServ` | unpv13e/libgai/ga_serv.c:8-57 | the list becomes what the planned calls make of it, one entry per address and call when no type is asked for; it succeeds exactly when some entry has a port and the service is known for a wanted type, and otherwise fails with no-name or service error by whether a type was asked for |
| `GaServ.ServNumber` | unpv13e/libgai/ga_serv.c:16-31 | a port number: one call for the caller's type, else stream and datagram |
| `GaServ.ServName` | unpv13e/libgai/ga_serv.c:32-48 | a service name: TCP then UDP, each only if wanted and known |
| `GaServ.PlanIsProper` | unpv13e/libgai/ga_serv.c:16-48 | the calls made always have distinct non-zero types, which is what the walk needs |
| `GaServ.PlanMeans` | unpv13e/libgai/ga_serv.c:16-48 | a call is made for a type and port exactly when the type is wanted and the port is the service's for it; TCP comes first |
| `GaServ.TotalOfPlan` | unpv13e/libgai/ga_serv.c:15-48 | together the calls find every entry with a port once per call |
| `GaServ.ServSucceeds` | unpv13e/libgai/ga_serv.c:50-56 | with no type asked for, something is found exactly when an entry has a port and the service is a number or known for TCP or UDP |
| `GaServ.PlanForHint` | unpv13e/libgai/ga_serv.c:18-22 | with a type asked for there is at most one call, which clones nothing, changes nothing but ports, and counts every entry that has one |
| `Dispatcher.StepKeeps` | unpv13e/server/child05.c:40-50 | a child's step keeps: status 0 exactly when it is idle with nothing in flight on its pipe, at most one thing in flight, nothing lost |
| `Dispatcher.ChildServes` | unpv13e/server/child05.c:40-50 | a child given a descriptor serves that one and then says so, and has no other step |
| `Dispatcher.Server.constructor` | unpv13e/server/serv05.c:30-39 | all children start idle and available |
| `Dispatcher.Server.Interfere` | unpv13e/server/child05.c:40-50 | any number of steps of any children keep the table right and lose no connection, also while the parent is in the middle of changing an entry |
| `Dispatcher.Server.FindIdle` | unpv13e/server/serv05.c:54-59 | with navail positive an idle child is found: the exit for no available children is unreachable |
| `Dispatcher.Server.Mark` | unpv13e/server/serv05.c:54-62 | an idle child is marked busy, and the count of available ones follows |
| `Dispatcher.Server.WriteFd` | unpv13e/server/serv05.c:64 | the descriptor goes into the marked child's pipe, which makes the entry right again |
| `Dispatcher.Server.Dispatch` | unpv13e/server/serv05.c:52-65 | with the children running between the marking and the writing, the connection goes to one child that was idle and is now busy |
| `Dispatcher.Server.ReadReady` | unpv13e/server/serv05.c:73-76 | with the children running between the read and the marking, reading its byte makes a child idle and available again |
| `Dispatcher.Server.ReadAll` | unpv13e/server/serv05.c:71-80 | every reported child is read, marked idle and counted, and no other entry changes, although the loop stops when nsel is used up |
| `Dispatcher.Server.Pass` | unpv13e/server/serv05.c:50-80 | one turn keeps the invariant, frees exactly the children reported, passes on the new connection, and the count of available ones follows |
| `Dispatcher.Server.Serve` | unpv13e/server/serv05.c:43-81 | navail equals the number of children with status 0, and the rest of the invariant, in every run |
| `Dispatcher.Server.Conserved` | unpv13e/server/serv05.c:43-81 | at every point the connections with the children are as many as were accepted, and each child's are, in order, those passed to it |
| `ThreadPool.FirstInFirstOut` | unpv13e/server/serv08.c:35-47 | in every run not ended by main: accepted descriptors are those taken, then those queued, then the one in hand, in order; at most 31 are queued; each was taken by one of the threads |
| `ThreadPool.NoLostWakeup` | unpv13e/server/pthread08.c:20-32 | whenever the mutex is free, min(queued, threads) is at most the number of threads not blocked on the condition variable |
| `ThreadPool.ExitsWhenFull` | unpv13e/server/serv08.c:40-44 | main exits exactly when it stores with 31 queued |
| `ThreadPool.StepKeepsInv` | unpv13e/server/pthread08.c:20-32 | every step of main and threads, spurious wake-ups included, keeps mutex ownership, order, ownership of what is served and the wake-up bound |
| `ThreadPool.RunKeepsInv` | unpv13e/server/serv08.c:35-47 | the invariant holds after any interleaving |
| `ThreadPool.TestTakesOldest` | unpv13e/server/pthread08.c:22-26 | a thread that tests takes the oldest descriptor, and waits only when there is none |
| `ThreadPool.StoreAppends` | unpv13e/server/serv08.c:40-44 | main's store puts its descriptor at the end of the queue and changes nothing else |
| `ThreadPool.SignalWakesOne` | unpv13e/server/serv08.c:45 | a signal wakes one thread if any is blocked |
| `ThreadPool.SomeoneComes` | unpv13e/server/pthread08.c:20-32 | with the mutex free and descriptors queued, some thread can take the mutex or is about to be done with a client |
| `ThreadPool.HolderGoesOn` | unpv13e/server/serv08.c:39-46 | whoever holds the mutex has a next step |
| `ThreadPool.MainGoesOn` | unpv13e/server/serv08.c:36-46 | main accepts whatever comes, locks as soon as it can and unlocks after the signal |
| `ThreadPool.ThreadGoesOn` | unpv13e/server/pthread08.c:20-32 | a free or woken thread locks to test again, and one that has taken a descriptor unlocks, serves that one and comes back |
| `ThreadPool.QueuePut` | unpv13e/server/serv08.c:40-42 | storing at iput lengthens the circular queue by one at its end |
| `ThreadPool.QueueAt` | unpv13e/server/pthread08.c:24-26 | the queue is the slots from iget on, going round at 32 |
| `ThreadPool.Ring.Put` | unpv13e/server/serv08.c:40-44 | in place: the descriptor joins the end of the queue, or the program ends exactly when 31 are queued |
| `ThreadPool.Ring.Take` | unpv13e/server/pthread08.c:24-26 | in place: the oldest descriptor leaves the queue |
| `SignalQueue.Echo.Run` | unpv13e/sigio/dgecho01.c:57-73 | with the handler running at every unblocked point: datagrams received are those sent, then those queued, in order, after any number of turns, and a turn with a datagram queued sends the oldest |
| `SignalQueue.Echo.EveryPhase` | unpv13e/sigio/dgecho01.c:62-72 | in every phase, also between advancing iget and decrementing nqueue, iput is the first unsent slot plus the pending count mod 8, and nothing is lost or reordered |
| `SignalQueue.Echo.SigIo` | unpv13e/sigio/dgecho01.c:78-108 | the handler appends what arrived, leaves every counted slot alone, the one being sent included, and exits exactly when the queue would reach 8; the histogram index is in range and its last counter never used |
| `SignalQueue.Echo.ReadLoop` | unpv13e/sigio/dgecho01.c:85-106 | each datagram goes to a free slot |
| `SignalQueue.Echo.SendOne` | unpv13e/sigio/dgecho01.c:62-72 | the datagram sent is the one that was oldest when the turn began, whatever signals come in between |
| `SignalQueue.Echo.Retire` | unpv13e/sigio/dgecho01.c:71-72 | the count catches up with iget |
| `SignalQueue.WindowPut` | unpv13e/sigio/dgecho01.c:89-104 | writing the slot after the window leaves the window and lengthens it |
| `SignalQueue.WindowAt` | unpv13e/sigio/dgecho01.c:64-68 | the queue is the slots from iget on, going round at 8 |
| `Relay.Client.StrCli` | unpv13e/nonblock/strclinonb.c:27-123 | for any sizes and results of reads and writes: bytes read from stdin are bytes written to the socket followed by the buffer, likewise back; the FIN is sent at most once, only at stdin's end with everything written; return only after stdin's end |
| `Relay.Client.Turn` | unpv13e/nonblock/strclinonb.c:42-122 | one turn reads exactly from what is ready and writes exactly to what is ready or has just been given something, as long as there is something to write and nothing failed; histories grow by just these bytes, and nothing goes to the socket after the FIN |
| `Relay.Client.ReadPhase` | unpv13e/nonblock/strclinonb.c:42-86 | which reads are made, what they add, and when the function returns or quits |
| `Relay.Client.WritePhase` | unpv13e/nonblock/strclinonb.c:89-122 | which writes are made and how many bytes they take off |
| `Relay.Client.AsksSomething` | unpv13e/nonblock/strclinonb.c:30-37 | select is never given empty sets; stdin is asked for until its end and each source as long as there is room |
| `Relay.Client.FromStdin` | unpv13e/nonblock/strclinonb.c:42-62 | the read never asks for 0 bytes; at end of file the FIN goes out at once if nothing is buffered |
| `Relay.Client.FromSocket` | unpv13e/nonblock/strclinonb.c:64-86 | end of the socket returns after stdin's end and is an error before it |
| `Relay.Client.ToStdout` | unpv13e/nonblock/strclinonb.c:89-103 | a partial write drains that much |
| `Relay.Client.ToSocket` | unpv13e/nonblock/strclinonb.c:105-122 | there is something to write only before the FIN, which goes out with the last byte after stdin's end |
| `Relay.Buffer.Fill` | unpv13e/nonblock/strclinonb.c:59 | what is read joins what is buffered |
| `Relay.Buffer.Drain` | unpv13e/nonblock/strclinonb.c:115-117 | what is written leaves the front, and an emptied buffer starts again at its beginning |
| `Readline.SameSession` | unpv13e/lib/readline.c:8-49 | over any sequence of calls on the same bytes, ends of file and failures, however the kernel cuts the reads of either and wherever it interrupts each, the buffered and the one-byte version return the same values and leave the same buffers |
| `Readline.SameLine` | unpv13e/lib/readline.c:13-17 | where a descriptor is interrupted makes no difference to the line |
| `Readline.Buffer.Readline` | unpv13e/lib/readline.c:28-49 | stores the next line of the unread buffer followed by the descriptor, terminated, and returns as specified; bytes handed out plus bytes read ahead stay equal to bytes taken from the descriptor |
| `Readline.Buffer.MyRead` | unpv13e/lib/readline.c:8-26 | one byte, end of file or error of that same pending input |
| `Readline.Buffer.Refill` | unpv13e/lib/readline.c:12-21 | an interrupted read is tried again, and nothing is lost |
| `Readline.SlowReadline` | unpv13e/test/readline1.c:5-30 | the same specification for the version that reads one byte at a time |
| `Readline.LineIsConserved` | unpv13e/lib/readline.c:34-48 | a line and what follows it are the input: nothing lost, nothing invented |
| `Readline.LineShape` | unpv13e/lib/readline.c:35-45 | a newline only at the end, and a cut only when the room is used up |
| `Readline.LineIsWhatComesFirst` | unpv13e/lib/readline.c:34-48 | spelled out for every input: bytes up to and with a newline, up to an end of file or a failure, or as many as there is room for |
| `Readline.InterruptIsPassedOver` | unpv13e/lib/readline.c:13-17 | an interrupted read is tried again |
| `Readline.ReturnedMeans` | unpv13e/lib/readline.c:40-48 | the bytes of the line at its newline or at end of file, -1 on a failure, maxlen when the line is cut |
| `Readline.FilledIsUnique` | unpv13e/lib/readline.c:34-48 | the specification determines the buffer |
| `Checksum.InCksum` | unpv13e/libfree/in_cksum.c:4-32 | the result is the one's-complement checksum of section 1 of RFC 1071 exactly when the words add up to less than 2^32, and always for up to 131074 bytes |
| `Checksum.LongerBufferCanFail` | unpv13e/libfree/in_cksum.c:16-19 | 131074 is the last such length: of every greater one, a buffer of 0xff bytes comes out wrong |
| `Checksum.AnswerIsChecksum` | unpv13e/libfree/in_cksum.c:16-31 | folding the wrapped sum is right exactly when it did not wrap |
| `Checksum.FoldedIsComplementOfResidue` | unpv13e/libfree/in_cksum.c:28-30 | two folds take in every carry of a 32-bit sum |
| `Checksum.OnesSumIsResidue` | unpv13e/libfree/in_cksum.c:16-31 | end-around carry at every addition equals one reduction of the plain sum |
| `Checksum.SumFits` | unpv13e/libfree/in_cksum.c:16-19 | 65537 words cannot overflow the accumulator |
| `Checksum.Accumulate` | unpv13e/libfree/in_cksum.c:16-25 | the loop and the odd byte give the sum of the words, wrapped to 32 bits |
| `Checksum.WordIsPair` | unpv13e/libfree/in_cksum.c:16-25 | which two bytes make which word, on either kind of host |
| `Checksum.OddLengthIsZeroPadded` | unpv13e/libfree/in_cksum.c:22-25 | an odd buffer has the checksum of the same buffer with a zero byte added |
| `Checksum.SwappedChecksum` | unpv13e/libfree/in_cksum.c:16-31 | swapping the bytes of every word swaps those of the checksum (section 2(B) of RFC 1071) |
| `Checksum.ByteOrderIndependent` | unpv13e/libfree/in_cksum.c:16-31 | big- and little-endian hosts leave the same two bytes in memory |
| `Checksum.StoredChecksumVerifies` | unpv13e/udpcksum/udpwrite.c:49-52 | stored in a zeroed aligned word, the checksum makes the whole check to 0, also when 0 is replaced by 0xffff |
| `Checksum.WrappedSumFails` | unpv13e/libfree/in_cksum.c:16-31 | a stored checksum whose sum has wrapped never checks to 0 |
| `Checksum.OneWordErrorDetected` | unpv13e/libfree/in_cksum.c:16-31 | one changed word goes unnoticed exactly between 0 and 0xffff with some other word non-zero |
| `Checksum.UdpWrite` | unpv13e/udpcksum/udpwrite.c:28-72 | data, ends, lengths and header fields are in place, the checksum field is not 0, and a receiver that rebuilds the pseudo-header finds checksum 0 exactly when the 32-bit sum does not wrap, which up to 131074 bytes it never does |
| `Checksum.StoreUdpSum` | unpv13e/udpcksum/udpwrite.c:51-52 | the field is never 0, and the datagram then checks to 0 exactly when the sum did not wrap |
| `Checksum.FillUdpHeader` | unpv13e/udpcksum/udpwrite.c:37-48 | the overlaid pseudo-header and UDP header, whatever the room held |
| `Checksum.FillIpHeader` | unpv13e/udpcksum/udpwrite.c:60-70 | the rest of the IP header overwrites only the zeroed part |
| `SelectLoop.Table.ServeClients` | unpv13e/tcpcliserv/tcpservselect01.c:66-81 | every ready client is served although the loop stops when nready is used up, and exactly those that ended leave the set |
| `SelectLoop.Table.TcpPass` | unpv13e/tcpcliserv/tcpservselect01.c:36-81 | a pass serves exactly what select reported and leaves the table in order; it quits exactly when a connection finds the table full |
| `SelectLoop.Table.TcpServer` | unpv13e/tcpcliserv/tcpservselect01.c:35-82 | in every run: allset is the listening descriptor plus the live clients, these are distinct, slots above maxi are free, maxfd bounds the set, and no pass skips a descriptor |
| `SelectLoop.Table.IcmpdPass` | unpv13e/icmpd/icmpd.c:40-63 | the same with the raw sockets; a connection that finds the table full is closed and the pass goes on |
| `SelectLoop.Table.Icmpd` | unpv13e/icmpd/icmpd.c:39-64 | in every run of icmpd the table is in order at every loop head and no pass skips a descriptor |
| `SelectLoop.ServeRaw` | unpv13e/icmpd/icmpd.c:43-55 | the three early exits agree with the count of descriptors not yet served |
| `SelectLoop.Table.Add` | unpv13e/icmpd/readable_listen.c:13-30 | the connection takes the first free slot, and the set and both high-water marks follow; a full table changes nothing |
| `SelectLoop.Table.Remove` | unpv13e/icmpd/readable_conn.c:48-54 | the slot is freed and its descriptor leaves the set |
| `SelectLoop.Table.FreeSlot` | unpv13e/icmpd/readable_listen.c:13-17 | the first free slot, if any |
| `SelectLoop.Table.constructor` | unpv13e/tcpcliserv/tcpservselect01.c:26-31 | the empty table is in order |
| `SelectLoop.Table.InOrder` | unpv13e/tcpcliserv/tcpservselect01.c:26-31 | what the table invariant says of each descriptor: it is in allset exactly if it is fixed or an entry that is not negative, and then it is at most maxfd and, as a client, within maxi |
| `WebScheduler.Scheduler.Run` | unpv13e/nonblock/web.c:32-80 | in every run: the three counters are the numbers of unstarted, active and unfinished files, nconn is at most maxnconn, the sets are those of the active and connecting files, no file moves back, and the loop ends only with every file read and its GET written once |
| `WebScheduler.Scheduler.Turn` | unpv13e/nonblock/web.c:33-79 | one turn of the outer loop: connections are started as far as allowed, files started before move on exactly as select and read say |
| `WebScheduler.Scheduler.Finished` | unpv13e/nonblock/web.c:32 | the loop's exit test holds exactly when all files are done, with empty sets and counters |
| `WebScheduler.Scheduler.SelectWaits` | unpv13e/nonblock/web.c:45-47 | while files remain, select has a descriptor to wait for exactly when maxnconn is at least 1 |
| `WebScheduler.NoneAllowed` | unpv13e/nonblock/web.c:13-33 | where it has none: with maxnconn 0 and one file, nothing is started and the sets are empty |
| `WebScheduler.Scheduler.StartOne` | unpv13e/nonblock/web.c:34-42 | the search for an unstarted file never comes back empty: the exit for nothing found is unreachable |
| `WebScheduler.Scheduler.StartMore` | unpv13e/nonblock/web.c:33-43 | connections are started until the limit or the files are used up |
| `WebScheduler.Scheduler.StartConnect` | unpv13e/nonblock/start_connect.c:4-31 | a new socket is watched for both while connecting, or has its GET written at once when connected |
| `WebScheduler.Scheduler.WriteGetCmd` | unpv13e/nonblock/write_get_cmd.c:4-18 | one GET more for the file, which is now read |
| `WebScheduler.Scheduler.Visit` | unpv13e/nonblock/web.c:50-78 | one file moves on exactly as its own descriptor allows, and counters and sets with it |
| `WebScheduler.Scheduler.Pass` | unpv13e/nonblock/web.c:49-79 | a connecting file is read from once its socket is readable or writable, a file is done once its socket is readable and at end of file, and nothing else changes |
| `WebScheduler.WatchedMeans` | unpv13e/nonblock/web.c:45-46 | the sets are exactly the descriptors of the active and of the connecting files, all different |
| `WebScheduler.Scheduler.constructor` | unpv13e/nonblock/web.c:15-29 | the initial state is in order |

## Left out

- The system-call wrappers of `lib/`, option parsing, messages and debugging output: they add no behaviour of their own.
- DNS, `/etc/services`, `sysctl` and `ioctl` results: taken as arbitrary inputs.
- Floats of `struct rtt_info`: modelled as reals, so rounding is not captured.
- The race between `alarm` and `sigsetjmp` in `dg_send_recv`: an alarm is a step of its own, taken only while waiting.
- Contents of replies in `dg_send_recv`: arbitrary, as the server chooses; only its echo of the 8-byte header is assumed.
- Size tests against the caller's buffer in `inet_ntop4` and `inet_ntop6`: the produced text is modelled, not the final copy.
- Ring: the mutex and condition variable are not part of it; the interleavings are those of the state machine beside it, whose steps it carries out on the array.
- AiStruct: allocation failure and the `unlink` of a passive local socket are not modelled.
- GaPort, GaClone, GaServ: allocation failure is not modelled; canonical names and flags other than AI_CLONE are not represented.
- `server/readline.c` and `server/readline_r.c`: on end of file after partial data they return one more than `lib/readline.c`, so they do not meet the same specification.
- One `read_buf` shared by several descriptors, and `readlinebuf`: the model uses one descriptor per buffer.
- Children that die in `serv05.c` and read errors on their pipes: the program exits there.
- SigIo: errors of `recvfrom` other than EWOULDBLOCK end the process and are not modelled.
- Contents of the datagrams' address lengths in `dgecho01.c`: a datagram is its data and its sender.
- UdpWrite: the IP header checksum (left to the kernel) and the `#else` branch for old Solaris are not modelled.
- Which clients receive an ICMP error in `icmpd`, and the registration of a client's family and port: only the table and the early exits are modelled.
- Descriptors in `client[]` above FD_SETSIZE: descriptor sets are sets of integers.
- Whether a connection in `nonblock/web.c` really succeeded: the code reports a failed one and treats it as established, and so does the model. `home_page` is not modelled.
- `threads/web03.c`: it sets F_DONE outside the mutex, so the counting invariant of `nonblock/web.c` does not carry over.
- Liveness: that a reply, an end of file or a signal ever comes is not assumed, and nothing is claimed to happen eventually.
- `traceroute`, `ping`, `crlf.c`, heartbeat, `readn`, `writen`, SCTP, multicast and key management: smaller or easier than the above.
