# gossip-p2p in Dafny

A model of the gossip node gossip-p2p, written in Rust over the `message-io` library. Each node keeps a registry of its peers. Once a connection the node dialed is established, it sends that peer its own public address and then a request for the peer's participant list; an accepted inbound connection gets nothing. A received list is used to dial every address the node does not know yet. Once per period, the node sends a random text to every peer it knows. The model covers the following parts of the node:

- the participant registry `ParticipantsStorage`, and its uncompiled copy `PeersStorage`;
- the protocol handler `Participant`;
- the command-line parser;
- the peer-list formatting `format_list_of_addrs`;
- the `# HH:MM:SS - msg` time stamp of the printer, and of the logger, an uncompiled alternative to it.

The files are:

- `net.dfy`: socket addresses and message-io endpoints. An endpoint is a connection resource plus its remote address.
- `decimal.dfy`: decimal text of unsigned integers, as `Display` prints them, and the value of a digit string.
- `text.dfy`: substring occurrence.
- `registry.dfy`: the registry contents as `map<Endpoint, Info>`, and everything read off them. `HashMap` iteration order is unspecified. It is modelled as an arbitrary enumeration of the keys, so list results are stated against any enumeration and proved order-independent as multisets.
- `storage.dfy`, `peer_storage.dfy`: the two registry classes. Their methods update the map field in place.
- `protocol.dfy`: the `Message` datatype and the `Participant` class. The network is an outbox of sends plus a dial oracle. The console is a list of printed lines. The class has one method per handler body, one for a turn of the event loop, and one for a wake-up of the sending thread. Beside them sit a functional specification of `pull_participants_list` (`PullFrom`) and the lemmas about it.
- `cli.dfy`: `parse_each_arg`, `parse_arguments`, `get_help_message`, and Rust's `str::parse::<u64>`.
- `addr_format.dfy`, `utils.dfy`: `ToSocketAddr` and `format_list_of_addrs` of src/participant/utils.rs and of src/utils.rs.
- `time_format.dfy`, `printer.dfy`, `logger.dfy`: the hours/minutes/seconds split, the `{:02}` padding, and the printed lines.

## Model

| member | source | states |
|---|---|---|
| Registry.Enumerate | src/participant/storage.rs:111-112 | an iteration of the map visits every stored endpoint exactly once |
| Registry.PublicAddrs | src/participant/storage.rs:111-116 | one public address per visited entry: the endpoint's own address if Known, the announced one if Unknown |
| Registry.ReceiversOf | src/participant/storage.rs:126-138 | one item per visited endpoint, carrying that endpoint and the public address `get_pub_addr` gives for it |
| Registry.EnumerationSize | src/participant/storage.rs:109-119 | an iteration has as many steps as the map has entries |
| Registry.ListedOncePerEntry | src/participant/storage.rs:108-122 | in any iteration order, each address occurs in the list of public addresses once per entry standing for it |
| Registry.OrderIndependent | src/participant/storage.rs:108-122 | two iteration orders give the same public addresses as a multiset |
| Registry.KnownIffListed | src/participant/storage.rs:71-76 | `is_known_participant(a)` holds iff `a` is among the listed public addresses, both directions |
| Registry.KnownIffListedAll | src/participant/storage.rs:71-76 | the same, for every iteration order at once |
| Registry.ReceiversOncePerEntry | src/participant/storage.rs:125-139 | every stored endpoint occurs exactly once in an iteration and no other endpoint occurs; there are as many receivers as entries |
| Registry.InsertEffect | src/participant/storage.rs:102-105 | an insert makes the endpoint stand for the new information and leaves every other endpoint's lookup unchanged |
| Registry.RemoveEffect | src/participant/storage.rs:92-94 | a remove forgets the endpoint, keeps every other lookup, and is a no-op when the endpoint was absent |
| Registry.Lookup | src/participant/storage.rs:146-151 | Some iff the endpoint is stored; a Known entry gives the endpoint's own address and an `Unknown(p)` entry gives `p` |
| Registry.IsKnownIffLookup | src/participant/storage.rs:71-76 | an address is known iff `get_pub_addr` of some stored endpoint gives it |
| Storage.ParticipantsStorage.constructor | src/participant/storage.rs:59-64 | the new storage is empty, has the given own address, no endpoint has a public address and no address is known |
| Storage.ParticipantsStorage.IsKnownParticipant | src/participant/storage.rs:71-76 | true iff some entry's public address is `addr`, iff `addr` is in the tail of the participants list for any iteration order |
| Storage.ParticipantsStorage.GetPubAddr | src/participant/storage.rs:146-151 | Some exactly for stored endpoints; a Known endpoint's own address; for an `Unknown(p)` entry, `p` |
| Storage.ParticipantsStorage.AddKnownParticipant | src/participant/storage.rs:83-85 | the entry becomes Known, overwriting any earlier one; `get_pub_addr(e) == Some(Addr(e))`; `Addr(e)` is known; other endpoints are unchanged |
| Storage.ParticipantsStorage.Drop | src/participant/storage.rs:92-94 | the endpoint is removed, others are unchanged, and dropping an absent endpoint changes nothing |
| Storage.ParticipantsStorage.AddUnknownParticipant | src/participant/storage.rs:102-105 | the entry becomes `Unknown(p)`, replacing any earlier one; `get_pub_addr(e) == Some(p)`; `p` is known; the entry count grows only for a new endpoint |
| Storage.ParticipantsStorage.GetParticipantsList | src/participant/storage.rs:108-122 | length entries+1, own address first, and the tail lists each address once per entry standing for it; for an empty storage it is exactly the own address |
| Storage.ParticipantsStorage.Receivers | src/participant/storage.rs:125-139 | one item per entry; every item's public address is `get_pub_addr` of its endpoint; an endpoint is stored iff some item carries it |
| PeerStorage.PeersStorage.constructor | src/peer_storage.rs:34-39 | the new storage is empty, has the given own address, and nothing is known |
| PeerStorage.PeersStorage.IsKnownPeer | src/peer_storage.rs:40-45 | true iff some entry's public address is `addr`, iff it is listed in the tail of `get_peers_list` (after the own address) for any iteration order |
| PeerStorage.PeersStorage.AddKnownPeer | src/peer_storage.rs:47-49 | the entry becomes Known with public address `Addr(e)`, which is then known; other endpoints are unchanged |
| PeerStorage.PeersStorage.Drop | src/peer_storage.rs:51-53 | the endpoint is removed, others are unchanged, and an absent endpoint changes nothing |
| PeerStorage.PeersStorage.AddUnknownPeer | src/peer_storage.rs:55-57 | the entry becomes `Unknown(p)`, overwriting any earlier one, and `p` is known |
| PeerStorage.PeersStorage.GetPeersList | src/peer_storage.rs:59-73 | length entries+1, own address first, and the tail lists each address once per entry standing for it |
| PeerStorage.PeersStorage.Receivers | src/peer_storage.rs:75-89 | one item per entry, whose public address is `get_pub_addr` of its endpoint |
| PeerStorage.PeersStorage.GetPubAddr | src/peer_storage.rs:91-96 | Some exactly for stored endpoints; a Known endpoint's own address; for an `Unknown(p)` entry, `p` |
| Protocol.Participant.constructor | src/participant/model.rs:66-85 | an empty storage owned by the node's public address, nothing sent, and `My address is "<addr>"` announced |
| Protocol.Participant.ConnectInitial | src/participant/model.rs:124-136 | without `--connect` nothing changes; a successful dial registers the endpoint as Known; a failed one prints `Failed to connect to <addr>` |
| Protocol.Participant.HandleEvent | src/participant/model.rs:143-162 | Accepted changes nothing; an established connection runs `connected`; a failed one prints a line and exits with status 1; a message has exactly the effects `NetworkMessages` states on the registry, the outbox, the console and the dials, and panics iff it is a text from an unregistered sender; a disconnection drops the endpoint |
| Protocol.Participant.NetworkMessages | src/participant/model.rs:189-229 | PublicAddress registers the sender as Unknown and sends nothing; a push request leaves the registry alone and sends exactly one PullParticipantsList of this node's list to the sender; a list is pulled as `PullFrom` says; a text changes no state and prints the sender's public address, or panics if the sender is unregistered |
| Protocol.Participant.SendingRandomMessageTick | src/participant/model.rs:259-292 | with no receivers nothing is sent or printed; otherwise one event line names the receivers and `random message N` is sent once to each receiver in iteration order; the appended sends reach every stored endpoint exactly once and no other endpoint |
| Protocol.Participant.SendToEach | src/participant/model.rs:290-292 | the outbox grows by one send of the message per receiver, in order |
| Protocol.Participant.Connected | src/participant/model.rs:310-336 | the endpoint becomes Known, and exactly two sends are appended, both to it: PublicAddress(own address), then PushParticipantsList |
| Protocol.Participant.PullParticipantsList | src/participant/model.rs:365-409 | the registry and the dials are those of `PullFrom`, nothing is sent, each failed dial prints a line, and if any dial succeeded an event lists the addresses other than this node's |
| Protocol.Participant.PullOne | src/participant/model.rs:374-393 | one pass of the loop: the loop invariant `Pulling` (registry and dials so far agree with `PullFrom`, the flag records a success, one console line per failed dial) carries over to the next address, and nothing is sent |
| Protocol.Participant.DialOne | src/participant/model.rs:382-391 | dialing an address the test admits keeps the loop's invariant: the registry left by the dial's outcome pulls the rest of the list to the same final result, the attempt is logged, the flag still records whether any dial succeeded, the console gains exactly the failure lines, and nothing is sent |
| Protocol.DialAdvance | src/participant/model.rs:382-391 | on the registry as a value, one dial advances the pull: the rest of the list, pulled from the registry the dial left, completes the same final result |
| Protocol.PullFrom | src/participant/model.rs:374-394 | at most one dial per listed address |
| Protocol.FailureLines | src/participant/model.rs:391 | at most one plain console line per dial |
| Protocol.Others | src/participant/model.rs:401-404 | exactly the listed addresses other than the node's own, each as many times as it is listed |
| Protocol.OthersAppend | src/participant/model.rs:401-404 | filtering a joined list is joining the filtered parts, so the kept addresses stay in list order |
| Protocol.PublicsOf | src/participant/model.rs:281-284 | the receivers' public addresses, in order |
| Protocol.Broadcast | src/participant/model.rs:290-292 | one send of the message to each receiver's endpoint, in order |
| Protocol.PullDialsOnlyEligible | src/participant/model.rs:377-385 | each dialed address is in the list, differs from the node's own and the sender's address, and was unknown when the pull began; its outcome is the oracle's |
| Protocol.PullOnlyAdds | src/participant/model.rs:382-392 | the pull keeps every existing entry unchanged, and every new entry is a Known endpoint that a dial returned; nothing known is forgotten |
| Protocol.PullNoRedialAfterSuccess | src/participant/model.rs:374-392 | an address whose dial succeeded is not dialed again in the same pull |
| Protocol.FailedAddressRedialed | src/participant/model.rs:374-392 | an unknown address listed twice whose dial fails is dialed and reported twice |
| Protocol.PullReachesEveryAddress | src/participant/model.rs:374-392 | afterwards every listed address other than the node's and the sender's is known, unless dialing it failed |
| Protocol.AfterSuccess | src/participant/model.rs:386-389 | a successful dial of an unknown address adds a new endpoint that makes the address known |
| Protocol.KnownAfterInsert | src/participant/model.rs:388 | adding a new Known endpoint keeps every known address known |
| Protocol.PullStepDial | src/participant/model.rs:377-392 | an admitted address is dialed first, and the rest of the list is pulled from the registry the dial left |
| Protocol.PullStepSkip | src/participant/model.rs:377-380 | a rejected address leaves the registry for the rest of the list unchanged |
| Protocol.EligibleIff | src/participant/model.rs:377-379 | the pull's test admits exactly the addresses other than the node's own and the sender's that no stored endpoint stands for |
| Protocol.FailedToConnectNames | src/participant/model.rs:391 | the failure line is `Failed to connect to ` followed by the address text |
| Protocol.ReceivedTextNames | src/participant/model.rs:225 | the line carries the received text right after `Received message [`, and the sender's public address just before the closing quote |
| Protocol.RandomTextReadsBack | src/participant/model.rs:273 | `random message ` followed by digits that read back as the random number |
| Protocol.SendingMessageText | src/participant/model.rs:276-285 | the line carries the random message's text right after `Sending message [` |
| Protocol.SendingMessageNames | src/participant/model.rs:276-285 | the line names every receiver's public address, quoted |
| Protocol.ConnectedToNoOne | src/participant/model.rs:398-405 | after `Connected to new participants: ` comes `[no one]` iff the list holds no address other than the node's own |
| Protocol.ConnectedToNewNames | src/participant/model.rs:398-405 | the line names, quoted, every listed address other than the node's own |
| Protocol.FailureLinesSnoc | src/participant/model.rs:391 | one more dial adds a failure line iff it failed |
| Protocol.AnySuccessSnoc | src/participant/model.rs:389 | the `new_connections` flag is the disjunction over the dials made so far |
| Protocol.BroadcastSnoc | src/participant/model.rs:290-292 | the broadcast to one more receiver adds one send at the end |
| Protocol.BroadcastReachesEachOnce | src/participant/model.rs:262-292 | for any iteration order, the broadcast reaches each stored endpoint exactly once, no other endpoint, and always with the same message |
| Protocol.DeliveredOnce | src/participant/model.rs:290-292 | what the tick appends to the outbox reaches each stored endpoint exactly once |
| Cli.ParseU64 | src/cli.rs:84 | Some iff the text is an optional `+` then one or more digits of value below 2^64, and then it is that value |
| Cli.AccumulateDigits | src/cli.rs:84 | the digit loop succeeds only on an all-digit text, and its result is never below the accumulator and always fits in a `u64` |
| Cli.AccumulateMatches | src/cli.rs:84 | the overflow-checked digit loop yields exactly the value of an all-digit text that fits in a `u64`, and fails otherwise |
| Cli.ParseDigits | src/cli.rs:84 | every `u64` parses back from its decimal text, with or without `+` |
| Cli.FindFirst | src/cli.rs:82 | the index of the first argument with the prefix, and None iff there is none |
| Cli.IndexOf | src/cli.rs:83 | the position of the first separator, and None iff there is none |
| Cli.Split | src/cli.rs:83 | no piece contains the separator, and there are two or more pieces iff the text contains it |
| Cli.SplitUnsplit | src/cli.rs:83 | joining the pieces with the separator gives the text back |
| Cli.SecondSegment | src/cli.rs:83 | Some iff the text contains `=`, and the piece contains no `=` |
| Cli.SecondSegmentAfterFirstEquals | src/cli.rs:83 | the second piece is the text after the first `=`, up to the next `=` or the end, so `--period=5=9` yields `5` |
| Cli.ParseEachArg | src/cli.rs:80-85 | None when no argument has the prefix; otherwise only the first such argument counts, and the result is Some iff its second piece is a valid `u64`, that value |
| Cli.ConnectArg | src/cli.rs:108-111 | None iff no argument starts with `--connect=`; otherwise the second piece of the first such argument, which always exists, so the `unwrap` cannot panic |
| Cli.ParseArguments | src/cli.rs:102-118 | the period is checked first, then the port; Ok iff both parse; then the period is the parsed value, the port is the parsed value modulo 2^16, and connect is `ConnectArg` |
| Cli.ParseArgumentsChecked | src/cli.rs:113-116 | like `parse_arguments`, but a port of 2^16 or more is refused with the port error; Ok results keep the parsed port exactly |
| Cli.PortWrapsAround | src/cli.rs:115 | `--period=5 --port=65616` is accepted with port 80, while the checked parser refuses it |
| Cli.GetHelpMessage | src/cli.rs:32-64 | the help text starts with a newline and the application title |
| Cli.HelpNamesProgram | src/cli.rs:33-57 | the program name heads the usage command line and all three example commands |
| Decimal.Digits | src/printer.rs:46 | a non-empty digit string, one digit iff the number is below ten, no leading zero |
| Decimal.ValueOfDigits | src/printer.rs:46 | the decimal text reads back as the number |
| Decimal.ValueOfCons | src/printer.rs:46 | a leading digit is worth itself times a power of ten |
| Decimal.ValueOfTwo | src/printer.rs:46 | two digits read back as ten times the first plus the second |
| Decimal.ValueInjective | src/printer.rs:46 | two digit strings of the same length and value are equal |
| Net.AddrToStringReadsBack | src/participant/model.rs:133 | the address text is the host, `:`, then the decimal port, and both read back |
| TimeFormat.Split | src/printer.rs:41-43 | the hours, minutes and seconds recombine to the elapsed seconds, and minutes and seconds are below 60 |
| TimeFormat.SplitUnique | src/printer.rs:41-43 | it is the only such split |
| TimeFormat.Pad2 | src/printer.rs:46 | `{:02}`: the digits of the number, two characters below 100, a leading zero only below ten |
| TimeFormat.ZeroStamp | src/printer.rs:46 | at zero seconds the stamp is `00:00:00` |
| TimeFormat.Stamp | src/printer.rs:46 | at least eight characters, and exactly eight when hours, minutes and seconds are all below 100 |
| TimeFormat.StampReadsBack | src/printer.rs:46 | for every elapsed time the stamp is a well-formed clock text (hours in two or more digits without a spare leading zero, minutes and seconds in two digits below 60) that reads back as the elapsed seconds; it is eight characters exactly below 100 hours |
| TimeFormat.HoursTextUnique | src/printer.rs:46 | two hours texts with the same value are the same text |
| TimeFormat.ClockTextUnique | src/printer.rs:46 | at most one well-formed clock text reads as a given number of seconds |
| TimeFormat.LongHoursInFull | src/printer.rs:46 | from 100 hours on, the hours are printed in full and the stamp grows |
| Printer.Time | src/printer.rs:37-47 | the line is `# `, a well-formed clock text that reads back as the elapsed seconds, ` - `, then the message; it is 13 characters longer than the message exactly below 100 hours |
| Printer.TimeDetermined | src/printer.rs:37-47 | any well-formed clock text reading as the elapsed seconds, framed the same way, is the line `time` prints, so the line is fully determined |
| Printer.Init | src/printer.rs:72-80 | for every elapsed time the line is `# `, a clock text reading back as the elapsed seconds, ` - `, then `My address is "<addr>"`; below 100 hours the announcement starts at character 13; at time zero the line is `# 00:00:00 - My address is "<addr>"` |
| Printer.AnnouncementNamesAddr | src/printer.rs:75 | the announcement is `My address is "`, the address text, then a closing `"` |
| Printer.PrintEvent | src/printer.rs:101-103 | the same line format as `time`: `# `, a clock text reading back as the elapsed seconds, ` - `, the message |
| Logger.LogTime | src/logger.rs:52-62 | the same `# <stamp> - msg` format as the printer, and the same line the printer's `time` prints |
| Logger.Init | src/logger.rs:78-95 | for every elapsed time the logged line is `# `, a clock text reading back as the elapsed seconds, ` - `, then `My address is "<addr>"`; at time zero it is `# 00:00:00 - My address is "<addr>"` |
| Logger.Log | src/logger.rs:108-110 | the same line the printer's `print_event` prints |
| AddrFormat.GetAddr | src/participant/utils.rs:41-66 | the identity on socket addresses, the remote address of an endpoint |
| AddrFormat.Quoted | src/participant/utils.rs:85-88 | each item becomes its quoted address, in order |
| AddrFormat.QuoteReadsBack | src/participant/utils.rs:87 | the quoted text is the address text between two `"` |
| AddrFormat.Join | src/participant/utils.rs:89 | no parts give the empty text; otherwise the length is the parts' lengths plus one separator between each two |
| AddrFormat.FormatListOfAddrs | src/participant/utils.rs:81-93 | `[no one]` iff empty; otherwise bracketed, starting with `["`, and never `[no one]` |
| AddrFormat.FormatSingle | src/participant/utils.rs:85-91 | a single address prints as `["<addr>"]` |
| AddrFormat.FormatAppend | src/participant/utils.rs:85-91 | one more address adds `, "<addr>"` before the closing bracket, so the addresses appear in input order |
| AddrFormat.FormatMentions | src/participant/utils.rs:86-89 | every address of the list appears quoted in the output |
| AddrFormat.JoinStartsWithFirst | src/participant/utils.rs:89 | the joined text begins with the first part |
| AddrFormat.JoinSnoc | src/participant/utils.rs:89 | joining one more part appends the separator and the part |
| AddrFormat.JoinPosition | src/participant/utils.rs:89 | every part occurs in the joined text |
| Utils.GetAddr | src/utils.rs:12-34 | the identity on socket addresses, and the same address the participant module's `get_addr` gives |
| Utils.FormatListOfAddrs | src/utils.rs:36-48 | `[no one]` iff empty, bracketed otherwise, and the same text as the participant module's `format_list_of_addrs` |

## Left out

- Wire encoding: `bincode` serialisation, message-io's `FramedTcp` framing and `send_message` are library code. A message is a Dafny datatype value and a send is an outbox entry. The repository has no frame codec of its own; message-io's `FramedTcp` frames the messages. A payload that fails to deserialize panics in `run` (src/participant/model.rs:154); that panic is not modelled.
- Registry on duplicates: `insert` overwrites a second connection under the same endpoint key (`Registry.InsertEffect`); nothing is rejected.
- Network I/O: `listen`, `connect` and `send` are not modelled directly. `connect` is a dial oracle passed as a function parameter. `Participant::new` takes the public address that `listen` bound.
- Protocol.PullNoRedialAfterSuccess: "no address is dialed twice" holds only for dials that succeeded. A failing address that appears twice in a list is dialed twice (`Protocol.FailedAddressRedialed`).
- Protocol.PullFrom: the dial oracle is a fixed function of the address, while `connect` is called afresh at every iteration. Within one list a retried address therefore gets the same outcome, so a dial that fails and then succeeds when the address is listed again is not modelled. `Protocol.FailedAddressRedialed` and `Protocol.PullReachesEveryAddress` rest on this.
- The pull lemmas assume the dial oracle is honest and fresh. Honest means a returned endpoint's address is the dialed address. Fresh means it never returns an endpoint already stored under an address the registry does not know.
- Concurrency: threads, `Arc<Mutex<…>>` and `tokio::task::spawn` are left out. The sending thread's loop and `thread::sleep(period)` are modelled as one wake-up (`SendingRandomMessageTick`). `node_listener.for_each` is modelled as one event (`HandleEvent`). The interleaving of the two is not modelled.
- Clock: the clock (`Instant::now`) is not modelled; the time functions take the elapsed whole seconds. Printing is not modelled either; each function returns the line, and the protocol appends it to a console list. The time stamp of event lines is not tracked there.
- Randomness: `rand::thread_rng().gen_range(0..1000)` is the parameter `n`, required to be below 1000.
- `SocketAddr` display: it is host text, `:`, then the decimal port. IPv6 bracketing and IP parsing are not modelled.
- src/main.rs: the argument-count check and the exit paths of src/main.rs are not part of this model. src/peer.rs is not part of this model either: it is not compiled, and it calls registry methods that do not exist.
- Integer widths: the port is `CliArguments.port`, a natural kept below 2^16 by `% U16_LIMIT`, and the period is an unbounded natural that `Participant::new` takes as it is. The `try_into().unwrap()` of the period into a `u32` in src/main.rs is not modelled; it panics for a period of 2^32 or more. A failing `listen` is not modelled either.

## Findings

| source | as written | input that shows it | evidently intended | confidence | as-written member | corrected member |
|---|---|---|---|---|---|---|
| src/cli.rs:115 | the port is parsed as a `u64` and cut down with `as u16`, keeping it modulo 65536 | `--period=5 --port=65616` is accepted and the node listens on port 80 | a port that does not fit in 16 bits is refused with "Port is required and must be a positive number" | not executed | Cli.PortWrapsAround | Cli.ParseArgumentsChecked |
