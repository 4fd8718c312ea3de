# A verified model of the Bluetooth PPP bridge

The repository is firmware for a bridge that gives old phones internet access: a phone speaks PPP over a Bluetooth
serial channel, the bridge routes it to Wi-Fi, answers its DNS, and passes its web traffic to an HTTP proxy. This
project models the parts of it with the most state and arithmetic in Dafny 4.11 and proves what they are for.

`dafny verify dfyconfig.toml` checks everything, in a minute or two.

| files | models |
|---|---|
| `Bytes`, `Text` | integer widths, byte strings, C-string helpers |
| `Checksum`, `Packet` | incremental checksums and the header rewrites of the transparent proxy |
| `FlowTable` | its NAT flow table and the two packet hooks, refined against a history of segments |
| `HttpRewrite`, `HttpForm`, `HttpMeaning`, `HttpBareCr`, `HttpGrowth` | the request-head rewriter: the loops, what they mean line by line, which host and which lines go out, where that ends, how much a head grows |
| `Sni` | the ClientHello parser against a printer |
| `Session`, `Slots`, `Relay`, `EndToEnd` | one relay session, the accounting of the slots, the relay task, what a session comes to from end to end |
| `PppTx` | the two-task transmit path of the PPP link |
| `AutoSecurity` | the held accept of the PPP link's auto security mode |
| `DnsCache`, `DnsReply`, `DnsServer` | the forwarder's cache, its made-up replies, one round of its loop |
| `BookmarkText`, `BookmarkMeaning`, `Bookmarks` | text cleaning, what is stored for what is typed, and the list on flash with the power going at any point |
| `Vhci` | the HCI packet ring between the controller's task and the host's |
| `WifiScan` | saved networks, scan candidates, the connect cycle |

Code that changes state in the source is a class or an in-place method here. Each is proved against a specification:
a function of the inputs, or a history or log kept beside the real fields. Two-task protocols (`PppTx`, `Vhci`) are a
transition function over the atomic sections of both tasks, with theorems about every run, and a class whose methods
are those transitions in place. What the environment decides (socket results, memory, clocks, scan results, which
flash write fails) is a parameter of the step that asks for it.

## What the code does not promise

Where the code and a plausible reading of it differ, the model follows the code, a lemma gives an input, and another
says exactly when the promise holds.

- A rewritten request head can be 132 bytes longer, not 130: an even run of CRs before the last line end makes the walk
  take one line too many (`HttpGrowth.GrowthReached`, `HttpGrowth.GrowthExceedsExactlyWhen`). The buffers still suffice
  (`Session.RewriteFits`).
- A bare CR inside a header line can end the rewritten head early (`HttpBareCr.BareCrSplitsHead`,
  `HttpBareCr.EndsItselfExactlyWhen`).
- An over-long bookmark address is meant to be refused, but is cut silently when a long enough run of spaces stands
  in the right place (`BookmarkText.GappedIsCut`, `BookmarkText.OverlongStoredExactlyWhen`).
- A captive or SERVFAIL reply does not parse when its query is longer than the 200 bytes copied, or has further records
  after its question, which are copied but not counted, as with EDNS
  (`DnsReply.LongQuestionCut`, `DnsReply.OptRecordSpoils`, `DnsReply.CaptiveRead`, `DnsReply.ServFailRead`,
  `DnsReply.FitsExactlyWhen`).
- A handshake reply uses up a can-send-now event without a look at the stream and can strand bytes until the next
  output (`PppTx.WatchedKeptExactlyWhen`, `PppTx.ReplyCanStrand`).
- A channel that opens before an earlier trampoline has run lets its registration be queued twice
  (`PppTx.OneTrampolineKeptExactlyWhen`, `PppTx.StaleFlagQueuesTwice`).
- The ring's space check forgets the two bytes of the tag (`Vhci.FramingKeptExactlyWhen`); within the credits the
  storage was sized for this never matters (`Vhci.NextFits`).
- Closing a relay session marks the flow that has its port now, which after a quick reuse of the port is a newer one
  (`FlowTable.LateCloseHitsNewer`, `FlowTable.OwnFlow`).

## Model

| member | source | states |
|---|---|---|
| Checksum.CsumAdj | main/http_proxy.c:237-244 | the update keeps the one's complement congruence of section 3 of RFC 1624, and gives 0xFFFF only from the one corner where it must |
| Checksum.CsumAdjSwaps | main/http_proxy.c:234-244 | updating byte-swapped words gives the byte-swapped update, section 2(B) of RFC 1071, for all 2^48 operands, 0x0000 and 0xFFFF included: why raw little-endian words may be used |
| Packet.TcpHeadersExactly | main/http_proxy.c:251-263 | the header checks against the header fields of section 3.1 of RFC 791: exactly unfragmented TCP in IPv4 with both headers complete passes, for every value of every field |
| Packet.IsSynExactly | main/http_proxy.c:299-300 | a connection-opening segment against the eight flag bits of section 3.1 of RFC 9293: SYN set and ACK clear, whatever the other six |
| Packet.ReaddressedIpChecksum | main/http_proxy.c:265-285 | after either rewrite the IPv4 header checksum verifies if and only if it did before |
| Packet.ReaddressedTcpChecksum | main/http_proxy.c:265-285 | the same for the TCP checksum over pseudo header and segment, for every payload, odd lengths included |
| Packet.RewriteDestination | main/http_proxy.c:265-274 | in place, the packet becomes the readdressed one: the destination address and port, the two checksums, and no other byte |
| Packet.RewriteSource | main/http_proxy.c:276-285 | the same for the source |
| FlowTable.DialledIsLatestSyn | main/http_proxy.c:287-334 | the affinity notion of the flow theorems, in words: the latest SYN of the port was redirected and went to d, and no other SYN, lost slot or reset came since |
| FlowTable.RefinesStep | main/http_proxy.c:287-334 | a segment that leaves other ports' flows alone keeps the live entries equal to what the history of segments says is redirected |
| FlowTable.OpensFlow | main/http_proxy.c:307-330 | a SYN that opens a flow: one live entry per port stays true, the evicted port is fairly chosen, other ports keep their flows, table and history agree |
| FlowTable.PassesThrough | main/http_proxy.c:307-330 | a segment is left alone only if it belongs to no live flow and cannot open one; the table still agrees with the history |
| FlowTable.Table.Find | main/http_proxy.c:180-186 | the one live entry of a phone port, or none |
| FlowTable.IdleExactly | main/http_proxy.c:188-204 | idle against true time: unused for more than 120000 ms, whatever the 32-bit clock shows |
| FlowTable.Table.Slot | main/http_proxy.c:188-204 | a free slot if any, else the closed one of greatest age, else the oldest active one idle over 120000 ms, else none: a fresh active flow is never taken |
| FlowTable.Table.Lookup | main/http_proxy.c:206-218 | what the relay learns of a connection is the destination the phone dialled: one of port 443 on the TLS listener, of port 80 on the other |
| FlowTable.BornStays | main/http_proxy.c:287-334 | over histories: the flow a port had after n events is still its flow exactly if no event since replaced it; otherwise the flow it has is a newer one |
| FlowTable.OwnFlow | main/http_proxy.c:180-228 | the same of the table: the entry found by port is still the flow a session was accepted for exactly if no event since opened another on the port, let a SYN of it pass, took its slot or reset the table |
| FlowTable.Table.MarkClosed | main/http_proxy.c:220-228 | closes and stamps the entry the port has now and no other; for a session accepted after n events that is its own flow exactly under the condition of OwnFlow |
| FlowTable.LateCloseHitsNewer | main/http_proxy.c:220-228 | on an empty table, for any port and any two destinations: the phone reuses the port, the old session closes late, the new flow is the one closed, and the new connection is refused |
| FlowTable.Table.Classify | main/http_proxy.c:307-330 | over every run: a non-SYN segment is redirected exactly when the latest SYN of its port dialled the same destination and was redirected; a SYN passes unredirected exactly when it repeats no active flow and there is no proxy to send it to or no slot to take |
| FlowTable.InterestingExactly | main/http_proxy.c:287-297 | which packets the hook looks at, in their own bytes: from 192.168.7.2, not to 192.168.7.1, to port 80 or 443, and only those that came over PPP |
| FlowTable.Table.InputHook | main/http_proxy.c:287-334 | the packet hook: a packet it looks at goes down in the history with the outcome of Classify, and leaves readdressed exactly if redirected; any other changes nothing |
| FlowTable.RestoredExactly | main/http_proxy.c:338-357 | which packets are restored, by the history: a relay port to a phone port whose connection was redirected to just that relay port; the table's entry decides the same |
| FlowTable.Table.Output | main/http_proxy.c:338-371 | a relay reply leaves as a copy with the dialled address and port as its source, the original stays as it was for retransmission, and exactly an active flow of its port is stamped; any other packet and the table stay untouched |
| FlowTable.RedirectedSegment | main/http_proxy.c:287-334 | composition: the relay sees the redirected segment addressed to itself, from the phone, with both checksum verdicts unchanged; on port 3080 exactly if it went to port 80, on 3443 exactly if to 443 |
| FlowTable.RestoredReply | main/http_proxy.c:338-371 | composition: the phone sees the reply come from what it dialled, with both checksum verdicts unchanged |
| FlowTable.Table.Clear | main/http_proxy.c:373-380 | a new PPP link empties the table and ends every connection of the history |
| HttpRewrite.FindBlank | main/http_proxy.c:386-392 | the first CRLFCRLF, or -1 if there is none |
| HttpRewrite.OutAdd | main/http_proxy.c:406-411 | appends exactly if there is room |
| HttpRewrite.Rewrite | main/http_proxy.c:420-480 | in place and with its capacity check, on any head whatever: the loops write the specified result, or fail |
| HttpForm.RewritePrinted | main/http_proxy.c:420-480 | for every well-formed request the rewriter writes the printed proxy form: absolute-form target (section 3.2.2 of RFC 9112), the other lines in order without Connection, Proxy-Connection and Keep-Alive, the fixed tail |
| HttpForm.ParseHead | main/http_proxy.c:386-392 | every head without a bare CR that has a request line is the print of some well-formed request |
| HttpForm.ProxiedTwice | main/http_proxy.c:420-480 | the proxy form of a proxy form is itself |
| HttpForm.AbsoluteForm | main/http_proxy.c:420-480 | main theorem: on every head without a bare CR the rewriter fails exactly when there is no request line; otherwise the result is the proxy form of the request, ends at its own first CRLFCRLF, and a second rewrite would not change it |
| HttpMeaning.HostForwarded | main/http_proxy.c:431-460 | an origin-form request goes out in absolute form for the host its last Host field names, whatever blanks and tabs stand around the value and whatever the case of the name, with exactly the hop-by-hop fields left out and the fixed end |
| HttpMeaning.BadHostForwarded | main/http_proxy.c:431-452 | if that value is no host, for the dotted address the phone dialled |
| HttpMeaning.HostNamed | main/http_proxy.c:431-449 | a value of 80 bytes or more is passed over for the Host field before it |
| HttpMeaning.HostFieldSplits | main/http_proxy.c:438-449 | every Host field is a name, a colon, blanks, a value without blanks at its ends, and blanks |
| HttpMeaning.AddressForwarded | main/http_proxy.c:449-460 | without a Host field, for the dotted address the phone dialled |
| HttpMeaning.TargetForwarded | main/http_proxy.c:454-460 | a target not in origin form goes out as it is |
| HttpMeaning.DroppedIsHop | main/http_proxy.c:462-474 | left out are exactly the fields named Connection, Proxy-Connection and Keep-Alive, letter case aside |
| HttpMeaning.HostOkExactly | main/http_proxy.c:394-404 | a host is not empty and of letters, digits and .-_:[] alone |
| HttpMeaning.DottedExactly | main/http_proxy.c:449-452 | a dotted address is four numbers in order, in decimal without leading zeros |
| HttpMeaning.ConnectIsPrinted | main/http_proxy.c:620-629 | the tunnel request is the request head section 9.3.6 of RFC 9110 asks for, and ends at its own blank line |
| HttpGrowth.Growth | main/http_proxy.c:420-480 | how much any head grows, to the byte: 44 for the tail, the scheme and host of an origin-form target, two if the walk runs over the end, less what is left out |
| HttpGrowth.GrowthBound | main/http_proxy.c:420-480 | on any head at all the result is at most 130 bytes longer, or 132 when a CR stands right before the final CRLFCRLF |
| HttpGrowth.GrowthExceedsExactlyWhen | main/http_proxy.c:420-480 | it is more than 130 bytes longer exactly when the run of CRs before the last LF but one has even length, the target is in origin form, and the host has at least 78 characters more than the bytes left out |
| HttpBareCr.BareCrSplitsHead | main/http_proxy.c:462-474 | a concrete head with a bare CR whose rewritten form ends its head early: the no-bare-CR condition is needed |
| HttpBareCr.EndsItselfExactlyWhen | main/http_proxy.c:462-479 | on any head at all the result ends at its own first CRLFCRLF exactly when no two neighbours among the kept pieces clash: a line end before an empty line, or a doubled CR before LF CR LF |
| HttpGrowth.GrowthReached | main/http_proxy.c:462-474 | a head that grows by the full 132 bytes |
| Sni.TlsSni | main/http_proxy.c:483-524 | the loops compute the specified walk on any bytes: every index stays in bounds and both loops end |
| Sni.SniOfPrinted | main/http_proxy.c:483-524 | the parser undoes a ClientHello printer (section 4.1.2 of RFC 8446, section 3 of RFC 6066), whatever the session id, suites, compression, other extensions and other names, and whatever follows the record |
| Sni.SniRoundTrip | main/http_proxy.c:483-524 | the printed host name comes back exactly when it has 1 to 79 characters, all of them allowed |
| Session.TurnConserves | main/http_proxy.c:734-760 | one turn of one direction loses, adds and reorders nothing, whatever send and recv answer |
| Session.TurnMoves | main/http_proxy.c:734-760 | which calls a turn makes and what they move: a send of what is held takes n bytes off it, a recv with nothing held adds just what it got |
| Session.SpliceEndsExactlyWhen | main/http_proxy.c:734-769 | when a pass closes the session: broken exactly if a call that was made gave an error, done exactly if the proxy is at its end and the phone has everything; a call that would block closes nothing; the idle deadline restarts exactly if a byte moved |
| Session.HelloExactly | main/http_proxy.c:666-671 | a handshake record is waited for until it is all there or 2048 bytes are; anything else until there are five |
| Session.AcceptsExactly | main/http_proxy.c:713-719 | of all status lines (section 4 of RFC 9112) exactly those with a 2xx code open the tunnel |
| Session.ConnectRequest | main/http_proxy.c:620-629 | for any host of at most 79 characters the CONNECT request is under 200 bytes, so snprintf never cuts it |
| Session.RewriteFits | main/http_proxy.c:685-701 | head plus body within 2048 bytes: the rewrite fails only for want of a request line, never of room, and result plus body fits the up buffer |
| Session.RequestOpening | main/http_proxy.c:685-702 | the up buffer's new content is the rewritten head and then the start of the body |
| Session.Session.Prepare | main/http_proxy.c:666-704 | when to wait, to fail and to connect, from the phone's bytes so far |
| Session.Session.HeadReadable | main/http_proxy.c:771-785 | S_HEAD: exactly when the session goes on, and its whole new state |
| Session.Session.OnConnected | main/http_proxy.c:620-637 | the tunnel request goes out whole, or the splice starts with the rewritten head |
| Session.Session.StartConnect | main/http_proxy.c:639-664 | which socket is kept, and exactly when the session survives |
| Session.Session.ReplyReadable | main/http_proxy.c:706-732 | S_REPLY: a tunnel opens exactly on a complete 2xx answer head, which is taken off the stream and nothing else; the whole new state |
| Session.Session.SpliceTurn | main/http_proxy.c:734-769 | the session makes exactly the specified pass, a turn each way, half-close, end, deadline, and nothing else of it changes; the write side is shut exactly when the phone is at its end with nothing held |
| Session.Session.DeliversInOrder | main/http_proxy.c:734-769 | in every state the proxy has been sent a prefix of the opening and then the phone's later bytes, the phone a prefix of what the proxy sent after its answer |
| Session.Session.NothingHeldBack | main/http_proxy.c:762-766 | with the buffers empty, as at a half-close or a done close, those prefixes are everything |
| Session.Session.Watch | main/http_proxy.c:819-833 | the descriptors waited on are exactly those the session's service would use if they were ready; there is always one, and whatever may be read has a positive length to go to |
| Slots.Opened | main/http_proxy.c:853-879 | a new session keeps the books: counter, open sockets and live buffers are exactly those of the used slots and the listeners |
| Slots.Attached | main/http_proxy.c:645-650 | so does getting the proxy socket |
| Slots.Closed | main/http_proxy.c:600-612 | so does closing a session, and what it releases was open and its own: each socket and buffer is released once |
| EndToEnd.RequestAwaited | main/http_proxy.c:685-697 | of any request and body, in whatever pieces it comes: a session waits until the head is whole, then goes on if there is memory; it gives up exactly if 2048 bytes do not hold the head |
| EndToEnd.RequestReachesProxy | main/http_proxy.c:666-760 | end to end: a plain request in one or two pieces, a connect that succeeds and a send that is taken, and the proxy has been sent exactly the rewritten head (HostForwarded and its siblings say which) and the body |
| EndToEnd.AnswerAwaited | main/http_proxy.c:706-732 | of any answer head and what follows it: a session waits until the head is whole, gives up exactly if 1535 bytes do not hold it, and then opens the tunnel exactly on a success |
| EndToEnd.HelloReachesHost | main/http_proxy.c:666-760 | end to end: a ClientHello in one or two pieces makes the proxy be asked for a tunnel to just the host it names; once that is granted the proxy is sent the whole ClientHello and the phone what came behind the answer |
| Relay.Task.DoAccept | main/http_proxy.c:835-880 | a connection gets a session exactly if the input hook redirected it and there are a slot and memory: the first free slot, for the address dialled, TLS exactly if port 443 was dialled, with the setup deadline; otherwise the accepted socket is closed again, and if it was redirected its flow is marked closed |
| Relay.Task.SessClose | main/http_proxy.c:600-612 | releases the slot's sockets and buffer, which are open, and nothing else; marks the flow of the session's port |
| Relay.Task.ServiceHead | main/http_proxy.c:773-785 | the slot's session advances by exactly what was read, its connect included, and is closed exactly if that says so; the books balance, other slots and flows stay |
| Relay.Task.ServiceConnect | main/http_proxy.c:786-798 | the same for S_CONNECTING and the outcome of the connect |
| Relay.Task.ServiceReply | main/http_proxy.c:799-812 | the same for S_REPLY and what the proxy sent |
| Relay.Task.ServiceSplice | main/http_proxy.c:813-815 | the same for S_SPLICE: the session makes the specified pass and is closed exactly if that gives a reason |
| Relay.Task.Service | main/http_proxy.c:771-817 | sess_service: each phase's session does exactly what is specified for it, the slot is kept or closed accordingly, and every other session stays as it is |
| Relay.Task.Pass | main/http_proxy.c:946-961 | one pass of proxy_task is exactly this run of steps: every slot served in turn, both listeners asked if there was room and heap, every slot looked at for lateness; nobody is left past the deadline |
| Relay.PassOnSlot | main/http_proxy.c:946-961 | what that comes to for a used slot: its session is served by what its sockets answer, and is there at the end just as its service left it, unless that closed it or it is late |
| Relay.PassLetsIn | main/http_proxy.c:950-951 | and for the listeners: each arrival has the exact outcome of do_accept, after the services |
| Relay.ExpiredExactly | main/http_proxy.c:955-955 | a session is late exactly when more than its milliseconds have truly gone by, wraps of the 32-bit clock included, unless it is looked at over 24 days late |
| Relay.Task.Do | main/http_proxy.c:900-963 | one step of the relay or of a packet hook keeps the task in order, and changes sessions, slots, flow table and history by exactly what is specified for it, nothing else |
| Relay.Task.Run | main/http_proxy.c:900-963 | in every run, any interleaving of services, accepts, timeouts, packets and new links: at every point the session counter, the open sockets and the live buffers are those of the used slots and the listeners, and each step made its exact change; a slot is filled by an accept of a redirected connection alone |
| Relay.Task.Expire | main/http_proxy.c:953-961 | closes exactly a session past its deadline by the signed 32-bit difference, and changes nothing else |
| PppTx.EveryRunIsSound | main/ppp_link.c:315-346 | every interleaving of both tasks keeps the flag backed by a coming trampoline, and every byte the stream took is offered once, in order |
| PppTx.WatchedKeptExactlyWhen | main/ppp_link.c:575-611 | of all steps of both tasks only a handshake reply that is sent can leave the stream unwatched, and it does exactly when bytes wait on the open channel and no trampoline or producer is under way |
| PppTx.NoLostWakeupBarReplies | main/ppp_link.c:315-346 | no interleaving loses a wake-up as long as each reply is sent at a harmless moment |
| PppTx.NoReplyNoLostWakeup | main/ppp_link.c:315-346 | in particular none does in a session where no handshake reply is queued |
| PppTx.ReplyCanStrand | main/ppp_link.c:582-592 | a concrete run in which a reply strands a frame with nobody on the way to it |
| PppTx.NextOutputWakes | main/ppp_link.c:337-344 | such a loss lasts until the next output: its flag test always ends in a wake-up |
| PppTx.DrainsByItself | main/ppp_link.c:315-346 | the BTstack task left to itself comes to a stop, after a number of steps known beforehand, and then every byte the stream took has been offered to the channel, with no reply pending |
| PppTx.WriteTakes | main/ppp_link.c:334-335 | a write is taken whole, or as far as fills the 8192 bytes |
| PppTx.ChunkExactly | main/ppp_link.c:594-597 | a chunk is the front of the stream, as long as the channel's frame size and 1024 bytes allow, so never empty while bytes wait |
| PppTx.ReplyStays | main/ppp_link.c:582-592 | a handshake reply stays until it is sent, another replaces it or a channel opens, and while it waits on an open channel a can-send-now event has been asked for |
| PppTx.OneTrampolineKeptExactlyWhen | main/ppp_link.c:555-558 | the registration is queued, running or about to be queued exactly once while the flag is set, unless a channel opens while it is set |
| PppTx.NeverQueuedTwice | main/ppp_link.c:337-344 | the comment's demand: a queued registration is never queued again, in every run whose channels open with the flag clear |
| PppTx.StaleFlagQueuesTwice | main/ppp_link.c:555-558 | a concrete run in which a channel opens too soon and the registration is queued twice |
| PppTx.PppLink.OutputWrite | main/ppp_link.c:334-335 | ppp_output_cb's stream write, in place: as much as fits, in order |
| PppTx.PppLink.OutputTestFlag | main/ppp_link.c:339-344 | its critical section is the specified atomic step |
| PppTx.PppLink.NotifyClear | main/ppp_link.c:315-323 | tx_notify_cb's critical section is the specified atomic step |
| PppTx.PppLink.CanSendNow | main/ppp_link.c:575-599 | the can-send-now handler up to the stream read is the specified step, in both its branches |
| PppTx.PppLink.Handshake | main/ppp_link.c:444-470 | the handshake's effect on the pending reply is the specified step |
| PppTx.PppLink.ChannelOpenedRest | main/ppp_link.c:555-570 | the resets of a channel that opens are the specified step |
| AutoSecurity.EveryHistoryIsSound | main/ppp_link.c:181-278 | over every order of events: the session flag is set exactly while there is an active channel, a held channel is that one and unanswered, every answer has its reason in the events before it |
| AutoSecurity.AcceptedOnlyWhenDecided | main/ppp_link.c:199-278 | in auto mode a channel is accepted only after its phone's name matched the list, or after its name failed and a security event of its own handle came with status 0 and level 2 or more |
| AutoSecurity.AnsweredAtMostOnce | main/ppp_link.c:493-524 | no incoming channel is ever answered twice |
| AutoSecurity.AnswersExactly | main/ppp_link.c:181-278 | each event of every history is answered as it calls for, neither more nor less, told by events and answers alone: a channel that comes in during another is declined, outside auto mode one that finds none is accepted at once; a listed name accepts the waiting channel at that very event; once security was asked for, the security event of its handle accepts or declines it; and which phone goes on record |
| AutoSecurity.NoneForgotten | main/ppp_link.c:181-278 | no phone is forgotten: every channel that came in has an answer, or is the one held now, or went down before it got one |
| AutoSecurity.OccursExactly | main/ppp_link.c:166-172 | a name is found where the same letters stand, case aside |
| AutoSecurity.IsNosecName | main/ppp_link.c:166-179 | the loops find a listed name anywhere in the phone's name, letter case aside |
| AutoSecurity.Link.IncomingConnection | main/ppp_link.c:493-524 | the handler in place takes the state to that of the longer history, and answers as the event calls for |
| AutoSecurity.Link.NameRequestComplete | main/ppp_link.c:241-259 | the same, with the name cut to its buffer: a listed phone that waits is accepted here and now |
| AutoSecurity.Link.SecurityLevelEvent | main/ppp_link.c:260-274 | the same |
| AutoSecurity.Link.ChannelOpened | main/ppp_link.c:526-573 | the same |
| AutoSecurity.Link.ChannelClosed | main/ppp_link.c:613-636 | the same |
| DnsCache.AgeOfRecent | main/dns_fwd.c:73-77 | the 32-bit age is the true age modulo 2^32, so it is the true one for anything younger than a wrap |
| DnsCache.QueryHash | main/dns_fwd.c:63-67 | the hash depends on the cache key alone, so equal keys never differ in it |
| DnsCache.OneEntryPerKey | main/dns_fwd.c:88-103 | while only missed queries are stored no two valid entries ever share a key |
| DnsCache.Cache.Lookup | main/dns_fwd.c:69-86 | a hit is a stored reply of that key among the last sixteen stores, not over 60000 ms old by the 32-bit clock, with the query's own ID, and the newest one while keys are unique; a key stored within sixteen stores and a minute does hit |
| DnsCache.Cache.Store | main/dns_fwd.c:88-103 | a store of allowed sizes becomes the newest of the sixteen, any other changes nothing; keys stay unique if the query had missed |
| DnsServer.Serve | main/dns_fwd.c:320-359 | one round of the server, exactly: the newest cached answer, always if there is a fresh one; else upstream's answer if Wi-Fi is up and it gave one, and that is stored; else, and only then, the made-up reply and no store; the reply carries the query's ID |
| DnsServer.ServeAll | main/dns_fwd.c:312-359 | any run of rounds: each is answered in just that way from the stores before it, everything stored came from upstream for that key, and no key is stored twice within sixteen stores and a minute |
| DnsReply.FindType | main/dns_fwd.c:112-119 | the label walk stops where specified, on any bytes, and ends |
| DnsReply.MakeCaptive | main/dns_fwd.c:105-165 | on any bytes and any buffer the builder stays in bounds and writes the specified reply |
| DnsReply.MakeServFail | main/dns_fwd.c:173-191 | the same for the SERVFAIL reply |
| DnsReply.CaptiveRead | main/dns_fwd.c:105-165 | for every one-question query of any length, whatever records its header announces and whatever follows: the reply parses (section 4.1 of RFC 1035) to the same ID and question and one A record of 192.168.7.1, or a name error for other types, exactly when the 200 bytes copied are the header and the question |
| DnsReply.ServFailRead | main/dns_fwd.c:173-191 | the SERVFAIL reply parses to the same ID and question, response code 2 and no records, under the same condition |
| DnsReply.FitsExactlyWhen | main/dns_fwd.c:126-157 | that condition in sizes: header and question take exactly 200 bytes, or fewer with nothing after them |
| DnsReply.OptRecordSpoils | main/dns_fwd.c:151-155 | a short query with an OPT record whose captive reply does not parse to what it should |
| DnsReply.LongQuestionCut | main/dns_fwd.c:144-155 | a query of 201 bytes for a legal name whose captive reply does not say what it should |
| BookmarkText.Sanitize | main/bookmarks.c:61-74 | the two loops leave the printable text, cut to the buffer and trimmed |
| BookmarkText.IsBareHost | main/bookmarks.c:84-99 | true exactly of a host, or a host with a numeric port |
| BookmarkText.NormalizeUrl | main/bookmarks.c:101-124 | computes the specified address |
| BookmarkText.NormalizedTwice | main/bookmarks.c:101-124 | normalizing an accepted address again returns it unchanged |
| BookmarkText.OverlongStoredExactlyWhen | main/bookmarks.c:105-124 | an address too long to store is refused, except exactly when the characters from the 160th to the 319th kept are all spaces, more follow, and what stands before them is an address of its own; then that is stored without notice, against the code's own comment |
| BookmarkText.GappedIsCut | main/bookmarks.c:105-111 | such an address |
| BookmarkMeaning.NormalizedExactly | main/bookmarks.c:101-124 | on any text: the clean text is stored if it has a "://" somewhere and starts with http:// or https://, in any case; else with http:// in front exactly if it is a host, perhaps with a numeric port, perhaps with a path; nothing of 160 characters or more |
| BookmarkMeaning.BareHostExactly | main/bookmarks.c:84-99 | is_bare_host as a grammar: a host without colon and slash, perhaps a colon and digits, perhaps a path |
| BookmarkMeaning.SanitizedExactly | main/bookmarks.c:61-74 | cleaning as four cuts of the text: the blanks in front, what is not kept, what does not fit, the spaces behind |
| BookmarkMeaning.PrintableJoins | main/bookmarks.c:66-71 | what is kept is decided character by character |
| BookmarkMeaning.SchemeRefused | main/bookmarks.c:84-124 | another scheme, as in javascript:alert(1), is refused, whatever comes after its colon |
| Bookmarks.SetReadsBack | main/bookmarks.c:182-240 | what set stores, get reads back: the cleaned title and the normalized address, in under 192 bytes |
| Bookmarks.Store.Get | main/bookmarks.c:182-201 | reads the entry of any index below the count, and nothing else |
| Bookmarks.Store.Set | main/bookmarks.c:203-240 | exactly when it succeeds; the list afterwards; and cut after any single flash write the list is the old one or the wanted one, every counted entry real |
| Bookmarks.Store.Remove | main/bookmarks.c:242-285 | a completed remove is exact deletion; cut after any single write the list is the old one, or one shorter with k entries moved down, every counted entry real |
| Vhci.ParseFrames | components/btstack-esp32/hci_transport_esp32_vhci.c:151-157 | length tags are unambiguous: the reader gets back exactly the packets written |
| Vhci.CreditsFit | components/btstack-esp32/hci_transport_esp32_vhci.c:85-89 | the storage formula: 20 ACL, 10 SCO and 4 event packets of maximum size always fit with their tags |
| Vhci.NextFits | components/btstack-esp32/hci_transport_esp32_vhci.c:143-149 | so one more packet within those credits finds room for itself and its tag |
| Vhci.FramingKeptExactlyWhen | components/btstack-esp32/hci_transport_esp32_vhci.c:143-157 | the space check leaves a gap of two bytes: the ring stays readable exactly when the packet is refused or fits with its tag |
| Vhci.EveryRunIsOrderly | components/btstack-esp32/hci_transport_esp32_vhci.c:134-193 | in every interleaving of both tasks, within the credits: delivered, in hand and unread packets are exactly those that arrived, in order; and while any is unread a callback is queued, running or about to be queued |
| Vhci.Transport.ReceivePacket | components/btstack-esp32/hci_transport_esp32_vhci.c:134-159 | the receive callback in place, with its two ring writes, is the specified atomic step |
| Vhci.Transport.TakePacket | components/btstack-esp32/hci_transport_esp32_vhci.c:181-188 | reading tag and packet in place is the specified atomic step |
| Vhci.Transport.DeliverPackets | components/btstack-esp32/hci_transport_esp32_vhci.c:179-193 | the drain loop, left alone, delivers everything that arrived and empties the ring |
| WifiScan.RoomForOneMore | main/wifi_multi.c:383-387 | by pigeonhole the cap of eight never drops a candidate |
| WifiScan.RecordAgain | main/wifi_multi.c:379-382 | a network seen again keeps its best signal |
| WifiScan.RecordNew | main/wifi_multi.c:383-387 | a saved network first seen becomes one candidate, with its saved password |
| WifiScan.SortedIsSorted | main/wifi_multi.c:393-405 | sorting loses and adds nothing and puts the strongest first |
| WifiScan.SameIntersection | main/wifi_multi.c:362-405 | the candidates are the same set of networks in any order |
| WifiScan.Wifi.ConsiderRecord | main/wifi_multi.c:370-390 | one scan record, in place: the candidates are exactly the saved networks among the records so far, each once, at its best signal |
| WifiScan.Wifi.InsertEntry | main/wifi_multi.c:394-405 | one round of the in-place sort of both arrays is an insertion |
| WifiScan.Wifi.SortCandidates | main/wifi_multi.c:393-405 | the in-place sort of both arrays is insertion sort, stable for equal signals |
| WifiScan.Wifi.ScanDone | main/wifi_multi.c:340-417 | the candidate list after a scan is exactly the saved networks among the first 24 records, each once, best signal and saved password, strongest first; the cycle starts at index 0 |
| WifiScan.Wifi.Disconnected | main/wifi_multi.c:498-551 | the index stays below the count throughout the cycle; attempts go to candidates 0, 0, 1, 1 and so on; exactly when the cycle goes on, is postponed, and fails, which is after two attempts at each |
| WifiScan.Wifi.ConnectBegin | main/wifi_multi.c:257-284 | no scan starts during a cycle, so none disturbs its candidates |
| WifiScan.Wifi.Add | main/wifi_multi.c:144-168 | exactly when it succeeds; a known name is updated in place, a new one appended; no name ever twice |
| WifiScan.Wifi.Remove | main/wifi_multi.c:170-194 | exact deletion by the shifting loop |

## Left out

- FlowTable.Table.InputHook: works on the first buffer of a packet; a payload continuing in later buffers appears only as the `rest` the checksum theorems quantify over.
- Vhci.EveryRunIsOrderly: assumes a controller within its credits; what the reader makes of a ring that has lost its framing is not modelled beyond the fact that it cannot be read to its end. Queueing the receive callback while it is queued has no effect here, as in BTstack's list code, which is not part of this model; `PppTx` counts such queueings because main/ppp_link.c:337 calls them harmful. If that comment is right, this transport, which has no pending flag, runs the same risk with every second packet.
- BTstack's ring buffer is a bounded byte queue whose writes are all or nothing; `hci.h`, which defines the header and event sizes 4, 3 and 257, is not part of this model and those constants are BTstack's.
- Vhci.Transport.ReceivePacket: packets of 1 to 65535 bytes, since the controller always sends a type byte; the interrupt-context panics and the send direction are left out.
- PppTx.EveryRunIsSound: the run loop, the RFCOMM credit scheme and lwIP appear only as which step may come next; received data other than the handshake text is left out, and so is which text calls for which reply.
- AutoSecurity.EveryHistoryIsSound: assumes what BTstack keeps to, channel numbers other than zero and a successful open only of the accepted channel; the PPP session itself is the one bit whether it started.
- DnsCache.Cache.Lookup: real time between two calls is given by an unbounded uptime, of which the code sees the low 32 bits of its milliseconds.
- DnsServer.Serve: the upstream exchange, its timeouts and the watchdog restart are one optional reply with the query's ID.
- Bookmarks.Store.Set: power cuts between key writes and failed key writes are modelled; a failed nvs_commit, which leaves the RAM count behind flash, and unreadable flash are not. Strings come without NUL.
- WifiScan.Wifi.Disconnected: which candidate is tried and when a cycle ends; timers, backoff, application state and the radio are outside, and "always retrying" is not claimed, since clearing the list mid-cycle leaves the candidates set.
- WifiScan.Wifi.ClearList: the saved list only.
- Session.Session.SpliceTurn: a session's sockets are oracles for what recv and send answer; up and down are two arrays, one allocation in the source.
- Relay.Task.DoAccept: a used slot holds a session object and an unused one null, where the source clears a static record; select is the choice of which service runs with which readiness; the free-heap test before accepting is a parameter. A socket call cannot hand over more bytes than asked for, or a descriptor that is in use; a step for which it would does nothing.
- Packet.RewriteSource: lwIP's byte-order macros are written out for the little-endian CPU the firmware runs on.
- Host-name resolution and the cached proxy address: one answer of the environment.
- Web pages, bookmarks pages, button, log, SDP records, Bluetooth naming, bring-up, heartbeat and watchdog: page text and glue, easy members only.
- The other files of the BTstack port (audio, codec, UART, flash bank, run loop): hardware plumbing.
- Proxy settings and security mode in flash: single values, read at boot.
