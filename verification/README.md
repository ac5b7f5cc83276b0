# llfix: session protocol, wire codec and fast structures, verified

A Dafny model of the hard parts of the llfix FIX engine: how two sides keep their sequence numbers in step
and recover, how bytes become messages and messages bytes, and the fast containers that must behave like
plain maps and lists. `dafny verify dfyconfig.toml` checks everything.

## What is modelled

| file | subject |
|---|---|
| `Bytes.dfy`, `Decimal.dfy` | byte strings; the 32-bit decimal converters with their wrap-around and table-driven digit count |
| `Checksum.dfy` | the checksum as a scalar loop and as the AVX2 loop over sixteen 16-bit lanes |
| `GroupSpecs.dfy`, `Loader.dfy` | repeating-group specs, and the mutually recursive dictionary walk that fills them |
| `IncomingMessage.dfy` | the generation-stamped tag dictionary and the pointer-reset group list |
| `Parser.dfy`, `Scanner.dfy` | what one message means, and the character scanner that computes it |
| `Framer.dfy` | cutting a chunked byte stream into messages |
| `Outgoing.dfy`, `RoundTrip.dfy` | the two-pass encoder, and what the receiver makes of its output |
| `Replay.dfy` | `load_from_buffer` and re-encoding a stored message |
| `Session.dfy`, `Runs.dfy` | one endpoint: counters, state, pending requests; what holds over every run |
| `Endpoint.dfy` | the client's receive path: framing, validating and handling message by message, until the session ends; it is a run of the session machine |
| `Acceptance.dfy` | which bytes reach the application, and what becomes of damaged ones |
| `SessionMessages.dfy` | the session's own messages as they are built, encoded and read by the peer |
| `Link.dfy`, `CatchUp.dfy` | two endpoints over lossy channels; catching up by replay, down to the bytes |
| `Connectors.dfy` | the server's two-way peer/session table |

Objects that the source changes in place are classes (`FixSession`, `Builder`, `Message`, `RepeatingGroups`,
`FixClient`, `GroupSpecsTable`, `SpecLoader`, `FixServerConnectors`). Each method equates the new state with
a function of the old one, and the theorems are about those functions. The scanners, searches and checksum
loops are loops. The transport is a chunk of bytes on receipt and a success flag on sending; clocks,
the outcome of `authenticate_logon_request` and the messages in the serialiser's memory are parameters.

## Main results

- **Two endpoints** (`Link.LinkSafety`): gap-fill mode, any interleaving, any losses. Neither incoming number
  passes the other side's outgoing number; deliveries are a subsequence of what was sent.
  `Link.GapExact` follows a gap in any reachable state to its recovery, and says exactly when a second request
  ends the session afterwards; `Link.GapFillRecovers` says of any run exactly when a request leads to recovery.
- **Replay over the wire** (`CatchUp.ReplayOverTheWire`): stored bytes are loaded, marked, re-encoded, cut into
  arbitrary chunks, framed, parsed and validated; each message is delivered once, in order, with the content
  it was first sent with, and the receiver ends at exactly the last number.
- **Recovery by replay** (`CatchUp.ReplayRecovers`): a gap, the request, the sender's decision to replay, and the
  replay end level; **by gap fill** also from a logon with a number too high (`Link.GappedLogonRecovers`).
- **Bytes to session** (`Endpoint.ReceiveIsRun`): any bytes in any chunks drive the session exactly as a run of its
  machine; **only authentic messages arrive** (`Acceptance.OnlyAuthenticArrives`), and **damage is refused**
  (`Acceptance.DamageRefused`).
- **Chunking independence** of the frames (`Framer.ChunkingIndependence`) and of the session that handles them
  (`Endpoint.SessionIndependentOfChunks`), the framer on **arbitrary bytes**
  (`Framer.AnyStream`), **parser acceptance** (`Parser.ParserExact`, with
  `Scanner.ScanMessage` computing it), **encode/parse/validate** (`RoundTrip.EncodeParseValidate`),
  **meaning-preserving replay** (`Replay.ReplayPreservesMeaning`), **AVX2 checksum** (`Checksum.SimdChecksum`),
  **dictionary loading** (`Loader.SpecLoader.Load`), **table inverses** (`Connectors.RunInverse`).

## What the code does that its promises do not say

Each of these is stated exactly, as an if-and-only-if or with a concrete input.

- The backwards search looks for the characters `10=`, the scanner for the tag number in 32 bits. A message
  closed by tag `4294967306` is complete for the scanner and invisible to the search
  (`Framer.WrappedTagIsMissed`); a message alone in the buffer is handed over if and only if it contains the
  characters (`Framer.SoleMessageExact`).
- A repeating group directly after another group is not opened: its fields become plain tags, and two entries
  make the message unacceptable (`RoundTrip.AdjacentGroupFallsOut`; `RoundTrip.AdjacentGroupsRejected` is such
  a message).
- With tag 369 switched on, every replayed application message carries it twice and is rejected
  (`Replay.ReplayWithLastProcessedRejected`; `CatchUp.SmallRejectedWithLastProcessed` for any small message).
- A replayed application message keeps its type if and only if the type has one character or no message before it
  wrote a longer first value to the builder (`Replay.TypeKeptExact`); AE after a first value 123 goes out as AE3
  (`Replay.TypeSpoiled`).
- A gap seen while a resend request is under way arms the request again, and the gap fill does not disarm it. The
  next timer check asks for a number already taken, the answer has a number too low, and the receiver ends the
  session. It happens if and only if a message behind the gap is taken after the request went out
  (`Link.GapExact`); one lost message and two more are enough (`Link.StaleRequestReached`).
- A replayed session-level message is a reset without tag 123. A stale one is refused but consumes a number, so
  it takes the receiver past the sender exactly when both were level (`CatchUp.ReplayedAdminExact`).
- A server lets a gapped message through while a logon is pending; `Runs.ReceiveExact` gives the exact condition.
- A message whose type merely starts with 4 is exempt from the number check (`Runs.ExemptExact`).
- A hard reset brings the receiver to `d` if and only if it was below `d` (`Runs.ResetReceived`).
- `FixServerConnectors::update` keeps the tables inverse if and only if the peer is new or already has that
  session (`Connectors.UpdateExact`).
- When no `8=` follows the last frame of a buffer that was not read to its final delimiter,
  `process_rx_buffer` returns without touching the incomplete buffer, so bytes already handled are put in front
  of the next read. `Framer.ProcessPlacement` gives the exact condition, `Framer.HandedOverTwice` a stream with
  one `8=` whose message is handed over twice, and `Framer.AnyStream` shows that nothing is handed over twice
  as long as no call meets the condition with bytes in the incomplete buffer.

## Model

| member | source | states |
|---|---|---|
| Decimal.CharsToU32Digits | include/llfix/core/utilities/converters.h:82-135 | reading back a written number gives that number, for every uint32_t, and the text is numeric |
| Decimal.AccumulateAppend | include/llfix/core/utilities/converters.h:82-102 | reading on shifts what was read by a power of ten per digit and adds the rest, modulo 2^32 |
| Decimal.PlusIgnored | include/llfix/core/utilities/converters.h:90-93 | a plus sign in front of digits makes no difference to the number read |
| Decimal.NumericExact | include/llfix/fix_string_view.h:94-120 | numeric is exactly: at most one sign and at least one digit, nothing else |
| Decimal.CharsLengthExact | include/llfix/core/utilities/converters.h:64-69 | the digit count from bit length, multiply-shift and table equals the number of decimal digits for every uint32_t |
| Decimal.UnsignedIntToChars | include/llfix/core/utilities/converters.h:104-134 | the backwards-filling loop produces the canonical decimal text |
| Decimal.CharsToUnsignedInt | include/llfix/core/utilities/converters.h:82-102 | the loop equals the recursive value modulo 2^32, with a leading plus skipped |
| Checksum.AddLanesSum | include/llfix/fix_utilities.h:322-362 | wrapping a 16-bit lane addition never changes the total modulo 256 |
| Checksum.UnpackSum | include/llfix/fix_utilities.h:330-342 | unpacking low and high halves of a 32-byte block loses and duplicates no byte |
| Checksum.ScalarChecksum | include/llfix/fix_utilities.h:303-320 | the uint32_t loop returns the byte sum modulo 256 for every length |
| Checksum.SimdChecksum | include/llfix/fix_utilities.h:322-362 | lanes, fold and tail return the same value as the scalar loop for every byte string |
| Checksum.ThreeDigitsRead | include/llfix/fix_utilities.h:364-378 | the validator reads back exactly the checksum the encoder wrote, so encoder and validator agree in both forms |
| GroupSpecs.UnpackPacked | include/llfix/fix_utilities.h:418-446 | unpacking undoes packing for every NUL-free type of up to four characters |
| GroupSpecs.GroupSpecsTable.AddCountTag | include/llfix/incoming_fix_repeating_group_specs.h:57-70 | adds exactly one (type, count tag) pair and changes no other answer |
| GroupSpecs.GroupSpecsTable.AddGroupTag | include/llfix/incoming_fix_repeating_group_specs.h:72-88 | adds exactly one (type, count tag, tag) triple and changes no other answer |
| Loader.ContainsSplit | include/llfix/fix_session.h:1736-1750 | what lies under a component is what the plain walk and the group walk find together |
| Loader.InGroupStep | include/llfix/fix_session.h:1721-1759 | reachability inside a group unfolds into nested groups and components, both directions |
| Loader.ComponentLower | include/llfix/fix_session.h:1673-1696 | in an acyclic dictionary following a component name strictly decreases the measure, so the recursion ends |
| Loader.GroupWalk | include/llfix/fix_session.h:1721-1759 | the pieces of one group visit add up to: all its contents under every open count tag and its own |
| Loader.SpecLoader.ProcessGroup | include/llfix/fix_session.h:1721-1759 | registers exactly that and restores the count-tag stack |
| Loader.SpecLoader.ProcessComponent | include/llfix/fix_session.h:1673-1696 | registers exactly what is reachable through groups and restores the stack |
| Loader.SpecLoader.ProcessPlain | include/llfix/fix_session.h:1698-1719 | registers exactly what is reachable through components alone, under every open count tag |
| Loader.SpecLoader.ProcessCountTag | include/llfix/fix_session.h:1761-1781 | registers the count tag, and as a member of the enclosing groups but not of itself |
| Loader.SpecLoader.Load | include/llfix/fix_session.h:1595-1670 | terminates with an empty stack; t is registered under c for a type if and only if a path from the message, header or trailer passes a group counted by c and ends at t |
| IncomingMessage.RepeatingGroups.Set | include/llfix/incoming_fix_repeating_groups.h:62-72 | appends one pair to the visible list, reusing or growing the vector |
| IncomingMessage.RepeatingGroups.GetValue | include/llfix/incoming_fix_repeating_groups.h:90-107 | returns the k-th occurrence of the tag, or nothing when there are fewer |
| IncomingMessage.RepeatingGroups.HasTag | include/llfix/incoming_fix_repeating_groups.h:109-121 | true exactly when the tag occurs in the visible list |
| IncomingMessage.RepeatingGroups.ValidateCountTag | include/llfix/incoming_fix_repeating_groups.h:123-156 | accepts exactly one numeric occurrence; each error code with its exact condition |
| IncomingMessage.LiveTagsAt | include/llfix/incoming_fix_message.h:85-93 | a key is visible exactly when its one node carries the current generation |
| IncomingMessage.LiveItemsExact | include/llfix/incoming_fix_message.h:422-476 | entries that are not stale are exactly the tags of the plain map with their values |
| IncomingMessage.Message.HasTag | include/llfix/incoming_fix_message.h:85-93 | membership in the plain map |
| IncomingMessage.Message.SetTag | include/llfix/incoming_fix_message.h:95-109 | one map update, groups untouched |
| IncomingMessage.Message.Reset | include/llfix/incoming_fix_message.h:146-163 | both views become empty, also when the 64-bit generation wraps to zero |
| IncomingMessage.Message.Entries | include/llfix/incoming_fix_message.h:422-476 | the iterator visits every live tag once and nothing stale |
| IncomingMessage.Message.CopyFrom | include/llfix/incoming_fix_message.h:111-127 | the target gains exactly the source's live tags and group fields |
| IncomingMessage.HandOver | include/llfix/fix_server.h:798-800 | after reset and copy both views of the target equal the source's |
| Parser.RejectSticksAll | include/llfix/fix_client.h:1295-1463 | a reject code once set is never unset by later fields |
| Parser.AfterExact | include/llfix/fix_client.h:1295-1455 | no code is set exactly on acceptable runs of fields, and then tags, groups and tag-35 position are exact |
| Parser.ParserExact | include/llfix/fix_client.h:1295-1463 | the code is unset at tag 10 if and only if all fields are well formed, 8, 9, 35 lead, no plain tag repeats and tag 9 is the distance from tag 35 to tag 10 |
| Parser.GoodSegmentExact | include/llfix/fix_session.h:796-816 | a field is good exactly when it is one to ten digits, an equals sign and a value, with a number that is not zero in 32 bits |
| Parser.FlawCode | include/llfix/fix_client.h:1313-1425 | the reject code of the first flawed field, for every kind of flaw and in the order in which they override each other |
| Parser.HeaderFieldsArePlain | include/llfix/fix_session.h:768-794 | the three leading fields are always recorded as plain tags |
| Scanner.ValidateTagFormat | include/llfix/fix_session.h:796-816 | one to ten digits, exactly |
| Scanner.RecordField | include/llfix/fix_client.h:1372-1443 | one field is recorded in tag map or group list as specified, with every reject code |
| Scanner.CheckBodyLength | include/llfix/fix_session.h:818-847 | the tag 9 / tag 35 check with its four codes, the 32-bit length read as signed |
| Scanner.ScanCharacters | include/llfix/fix_client.h:1295-1463 | the character loop stops at the first closing field with exactly the specified parse, or at the end with no further delimiter |
| Scanner.ScanMessage | include/llfix/fix_client.h:1280-1466 | a message is found exactly when a whole one is there, and the object then holds its parse |
| Framer.ProcessPlacement | include/llfix/fix_client.h:1231-1491 | for every buffer: frames are disjoint, in order, inside the buffer, each a whole message; the incomplete buffer is left alone if and only if the stated condition holds, and otherwise one suffix at or after the last frame is kept |
| Framer.AnyStream | include/llfix/core/utilities/tcp_connector.h:228-244 | any bytes in any chunks: while no call leaves a non-empty incomplete buffer alone, the messages of all calls are disjoint whole-message substrings of the stream, in order, and the kept bytes a later suffix |
| Framer.HandedOverTwice | include/llfix/fix_client.h:1274-1278 | three concrete chunks with one start of message after which it has been handed over twice |
| Framer.ProcessStream | include/llfix/fix_client.h:1231-1491 | whole messages followed by an unfinished one: exactly those messages, exactly that rest |
| Framer.ChunkingIndependence | include/llfix/fix_client.h:1231-1491 | any split of a stream of well-framed messages into receive calls gives the messages in order, once each, and keeps exactly the unfinished suffix |
| Framer.SoleMessageExact | include/llfix/fix_utilities.h:244-285 | a framed message alone in the buffer is handed over if and only if it contains the characters 10= before a delimiter |
| Framer.WrappedTagIsMissed | include/llfix/fix_utilities.h:244-285 | a concrete message closed by tag 4294967306 is framed and yet not handed over |
| Framer.FinalDelimiter | include/llfix/fix_utilities.h:244-285 | no marker exists exactly when -1; every marker has a delimiter at or before the result |
| Framer.FindDelimiterFromEnd | include/llfix/fix_utilities.h:213-242 | finds the last delimiter, or none exactly when there is none |
| Framer.FindTag10StartFromEnd | include/llfix/fix_utilities.h:244-285 | the backwards search from the last delimiter equals the search over the whole buffer |
| Framer.FindBeginStringPosition | include/llfix/fix_utilities.h:287-301 | the first 8= at or after the read index, or -1 exactly when there is none |
| Endpoint.HandleStops | include/llfix/fix_client.h:1468-1473 | after the message that disconnects the session nothing more is handled |
| Endpoint.HandleAppend | include/llfix/fix_client.h:1263-1491 | until then, handling a list of messages is handling its parts in turn |
| Endpoint.OnlyTerminationEnds | include/llfix/fix_client.h:1542-1550 | a message disconnects a client's session exactly when the session shuts itself down |
| Endpoint.HandleIsStep | include/llfix/fix_client.h:1507-1526 | a valid message is one received message of the session machine, a refused one only a sign of life |
| Endpoint.HandleAllIsRun | include/llfix/fix_client.h:1493-1586 | handling messages is the run of these steps, up to the first that disconnects the session |
| Endpoint.RefusedMessages | include/llfix/fix_client.h:1507-1520 | refused messages leave both numbers, the state and every request as they were, and hand on nothing |
| Endpoint.ReceiveIsRun | include/llfix/fix_client.h:577-587 | receiving any bytes in any chunks is a run of received and refused messages |
| Endpoint.ReceivedNumbers | include/llfix/fix_client.h:1522-1550 | for any bytes in any chunks the number never decreases and the numbers handed on, resets aside, strictly increase |
| Endpoint.SessionIndependentOfChunks | include/llfix/fix_client.h:1231-1491 | however a stream is cut into receive calls, the session state and the messages handed to the application are those of handling its messages one by one, up to the one that ends the session |
| Endpoint.FixClient.ProcessIncomingFixMessage | include/llfix/fix_client.h:1493-1586 | validation and session protocol on the parsed message, as one step on its bytes |
| Endpoint.FixClient.MessageLoop | include/llfix/fix_client.h:1263-1491 | frames, parses and handles message by message until the buffer or the session ends, with the incomplete buffer of each exit |
| Endpoint.FixClient.ProcessRxBuffer | include/llfix/fix_client.h:1231-1491 | the whole of one call: the session afterwards, what the application got, and the kept bytes |
| Endpoint.FixClient.OnDataReady | include/llfix/fix_client.h:577-587 | kept bytes followed by new ones, so calls compose to the stream theorem |
| Acceptance.ValidExact | include/llfix/fix_session.h:849-1019 | validation passes exactly the messages parsed without complaint, with the right checksum, begin string and mirrored CompIDs, a numeric 34 and a 52 |
| Acceptance.RefusalExact | include/llfix/fix_session.h:849-961 | which refusals are answered with a reject and its code, and which are silent |
| Acceptance.OnlyAuthenticArrives | include/llfix/fix_client.h:1507-1520 | for any bytes in any chunks, each arrival comes from one whole message that satisfies all of this |
| Acceptance.ArrivalsNumberedAndTimed | include/llfix/fix_session.h:851-867 | nothing without a numeric 34 or without a 52 arrives, however it is cut |
| Acceptance.FrameStructure | include/llfix/fix_client.h:1304-1440 | a byte string that is one frame is the join of its segments, of which only the last closes it |
| Acceptance.AuthenticSum | include/llfix/fix_session.h:932-961 | the three digits behind the closing 10= of an accepted message are its byte sum modulo 256 |
| Acceptance.DamageRefused | include/llfix/fix_session.h:941-961 | an encoded message changed in transit in front of its closing seven bytes, so that its byte sum changes, is refused by every receiver and moves no number |
| Acceptance.OneByteChangesSum | include/llfix/fix_utilities.h:364-378 | changing any one byte changes the sum modulo 256 |
| Outgoing.Append | include/llfix/outgoing_fix_message.h:763-801 | the field goes to the end, a placeholder is always left behind it |
| Outgoing.CountVector | include/llfix/outgoing_fix_message.h:377-398 | the counting loop returns the byte length of the fields it will write and caches correct tag texts |
| Outgoing.CountedLength | include/llfix/outgoing_fix_message.h:346-401 | the constant 20 plus the counted parts equals the length of the bytes written for the body |
| Outgoing.BodyLengthIsExact | include/llfix/outgoing_fix_message.h:346-518 | tag 9 is the number of bytes between its own end and the start of 10=, for every number of fields |
| Outgoing.TrailerIsSevenBytes | include/llfix/fix_session.h:941-961 | the closing field is seven bytes, so the validator's range is the range the encoder summed |
| Outgoing.Builder.SetTag | include/llfix/outgoing_fix_message.h:763-801 | appends to one of the three components and leaves the others alone |
| Outgoing.Builder.SetStatic | include/llfix/outgoing_fix_message.h:309-323 | appends one static header field with its cached text |
| Outgoing.Builder.CountBodyLength | include/llfix/outgoing_fix_message.h:346-401 | the counting pass keeps all fields and returns the sum of the written lengths |
| Outgoing.Builder.Encode | include/llfix/outgoing_fix_message.h:336-527 | the buffer holds exactly the specified message and is otherwise as before; the builder is left empty |
| RoundTrip.TrackItems | include/llfix/fix_client.h:1387-1429 | the parser's group tracking recovers the declared items: plain fields, and group fields in order |
| RoundTrip.AdjacentGroupExact | include/llfix/fix_client.h:1391-1405 | right after a group, another count field counts as grouped if and only if it belongs to the group before |
| RoundTrip.AdjacentGroupFallsOut | include/llfix/fix_client.h:1391-1405 | a foreign group right after a group becomes plain tags; repeated members make it unacceptable |
| RoundTrip.AdjacentGroupsRejected | include/llfix/fix_client.h:1391-1405 | a concrete encodable order with two declared groups side by side is rejected |
| RoundTrip.EncodedIsFramed | include/llfix/fix_client.h:1280-1466 | encoded fields are one frame, whatever follows, and the backwards search finds it |
| RoundTrip.EncodedAcceptance | include/llfix/fix_client.h:1280-1466 | an encoded message is accepted if and only if no tag repeats outside groups |
| RoundTrip.EncodeParse | include/llfix/outgoing_fix_message.h:336-527 | parsing an encoded draft: accepted if and only if plain tags are distinct, and then exactly its fields |
| RoundTrip.EncodeParseValidate | include/llfix/fix_session.h:849-1019 | an encoding validates if and only if no plain tag repeats and begin string and CompIDs are mirrored; number and type come back |
| Replay.EncodedLayout | include/llfix/outgoing_fix_message.h:403-518 | an encoded message read back: tags 8, 9, 35, 34, 49, 52, 56, 369 if configured, then static, header, body and trailer fields in order, then 10 |
| Replay.ReadEncoded | include/llfix/outgoing_fix_message.h:573-682 | the second parser reads an encoded message back to its field list |
| Replay.LoadPair | include/llfix/outgoing_fix_message.h:611-662 | one pair changes the builder as specified for every tag class |
| Replay.LoadFromBuffer | include/llfix/outgoing_fix_message.h:573-682 | the scanning loop loads exactly the pairs of the buffer, in order |
| Replay.EncodedLoaded | include/llfix/outgoing_fix_message.h:620-660 | an application message keeps type and fields and gains 122; a session-level one becomes a SequenceReset to the next number |
| Replay.ResendMessage | include/llfix/fix_client.h:777-798 | load, mark, encode: the bytes sent are the encoding of the loaded and marked draft, and the builder is empty again |
| Replay.ApplicationReplayIs | include/llfix/fix_client.h:777-798 | for an application type that is kept, that draft is the original plus 122, 43 and, if configured, 97 |
| Replay.TypeKept | include/llfix/outgoing_fix_message.h:628-638 | the type survives loading if and only if it has one character or nothing is left behind it in the reused cell |
| Replay.LeftBehindExact | include/llfix/fix_string.h:94-112 | the cell leaves nothing behind n characters if and only if no longer value was ever written to it |
| Replay.TypeTakesFirstCell | include/llfix/outgoing_fix_message.h:611-618 | in an encoded message nothing is loaded before the MsgType, so it takes the cache's first cell |
| Replay.TypeKeptExact | include/llfix/outgoing_fix_message.h:628-638 | over the life of a builder: a type is kept if and only if it has one character or no earlier message wrote a longer first value |
| Replay.TypeSpoiled | include/llfix/outgoing_fix_message.h:628-638 | type AE after a first value 123 is resent as AE3 |
| Replay.ReplayEncodable | include/llfix/fix_client.h:777-798 | what the encoder needs of the replay follows from the stored message, the new time and room for the added fields |
| Replay.ReplayGrouped | include/llfix/fix_client.h:777-798 | the added fields leave the declared groups as they were |
| Replay.ReplayWithLastProcessedRejected | include/llfix/outgoing_fix_message.h:654-660 | with tag 369 on, the receiver rejects every replayed application message |
| Replay.ReplayPreservesMeaning | include/llfix/outgoing_fix_message.h:573-682 | the replay is accepted if and only if the original was and carried none of the added tags; groups are equal and all tags but 9, 10, 52 and the added ones keep their values |
| Session.FixSession.QueueOutgoingResendRequest | include/llfix/fix_session.h:406-412 | rolls the counter back and records the range |
| Session.FixSession.ProcessIncomingSequenceReset | include/llfix/fix_session.h:667-705 | the whole new state, and refused exactly for a NewSeqNo not above the counter |
| Session.FixSession.ProcessResendRequest | include/llfix/fix_session.h:707-743 | the whole new state: recorded only with both numbers numeric |
| Session.FixSession.DispatchMessage | include/llfix/fix_client.h:1560-1586 | the message switch for client and server, including the logon number check |
| Session.FixSession.ProcessIncoming | include/llfix/fix_client.h:1493-1586 | bump, gap, low number, hard reset and dispatch refine the step relation |
| Session.FixSession.RespondToResendRequest | include/llfix/fix_client.h:1182-1222 | sends the specified answer and clears the flag; the memory scan decides between replay and gap fill |
| Session.FixSession.RespondToTestRequest | include/llfix/fix_client.h:1162-1180 | one heartbeat for an owed test request, and the debt is paid |
| Session.FixSession.ProcessResendTimer | include/llfix/fix_client.h:1133-1160 | sends one request, or ends the session on expiry, and what it sends |
| Session.FixSession.ProcessTestTimer | include/llfix/fix_client.h:1104-1131 | sends one test request, or ends the session, and what it sends |
| Runs.ReceiveExact | include/llfix/fix_client.h:1522-1560 | the counter never decreases; delivered or not with the exact condition; a delivered message has number stored+1 unless a server is in PENDING_LOGON |
| Runs.ExemptExact | include/llfix/fix_session.h:1043-1070 | exempt from the number check are exactly the messages whose type starts with 4 and whose tag 123 is not Y; one whose type is longer than 4 alone uses up one number |
| Runs.DispatchIncoming | include/llfix/fix_server.h:2205-2223 | dispatching moves the counter only up for a reset, or back by one for a gapped logon |
| Runs.EndpointRun | include/llfix/fix_client.h:1493-1586 | over every run of a client, or a server past its logon, against any peer the stored number never decreases and delivered numbers strictly increase |
| Runs.ConsecutiveNumbers | include/llfix/fix_client.h:442-450 | ordinary sends of every run carry exactly outgoing+1, outgoing+2, ... |
| Runs.NumbersAfterReset | include/llfix/fix_session.h:654-665 | after a reset to d the next ordinary number is the announced NewSeqNo d+1 |
| Runs.ResetReceived | include/llfix/fix_session.h:667-705 | the receiver ends at d if and only if it was below d |
| Runs.StepTest | include/llfix/fix_client.h:1104-1131 | every step keeps: a pending test request is no older than the test interval after the last receipt |
| Runs.NoEarlyTermination | include/llfix/fix_client.h:1104-1131 | no run ends through the test path before the test interval plus two heartbeats have passed |
| Runs.AnswerExact | include/llfix/fix_client.h:1182-1222 | replay of begin..last, message by message, exactly when serialising and replaying, the request is open-ended or ends at the last number, begins at a sent number, is within range and all is in memory; otherwise one gap fill from begin to the next number |
| Runs.InSequenceExact | include/llfix/fix_client.h:1560-1586 | the whole new session after each type of message in sequence |
| Runs.LogonAnswerExact | include/llfix/fix_client.h:1588-1650 | a waiting client is logged on by A, refused by 3, 5 and j, and goes on waiting otherwise |
| Runs.SequenceResetExact | include/llfix/fix_session.h:667-705 | a reset moves the number up to just below NewSeqNo or consumes one, and nothing else |
| Runs.ServerLogonExact | include/llfix/fix_server.h:2205-2223 | a logon at a waiting server: logged on; a number too high leaves the counter and owes a request from the next number to the logon's; a low one or a failed authentication ends the session |
| Runs.ResendDue | include/llfix/fix_client.h:1150-1158 | an owed request goes out at the next check, with 7 the recorded number and 16 zero |
| Runs.ResendLapses | include/llfix/fix_client.h:1135-1147 | a request without effect for its expiry ends the session at the next check, and not before |
| Runs.SilenceEndsSession | include/llfix/fix_client.h:1104-1131 | after the interval one test request; after two more heartbeats of silence the session ends; neither earlier |
| Runs.TestRequestAnswered | include/llfix/fix_session.h:745-758 | a peer that takes a test request in sequence sends one heartbeat |
| Link.SenderSends | include/llfix/fix_client.h:442-450 | sending keeps the invariant of a direction |
| Link.SenderAnswers | include/llfix/fix_client.h:760-775 | a gap fill keeps it: it announces no number the sender has not used |
| Link.ReceiverReceives | include/llfix/fix_client.h:1493-1586 | receiving whatever is next on the wire keeps it |
| Link.Loses | include/llfix/fix_client.h:1493-1586 | losing any message keeps it |
| Link.StepKeepsA | include/llfix/fix_server.h:1559-1599 | every step of an endpoint keeps the invariant of both directions |
| Link.LinkSafety | include/llfix/fix_client.h:1493-1586 | in every run no incoming number exceeds the peer's outgoing number and deliveries are a subsequence of the sent messages |
| Link.HeadFillExact | include/llfix/fix_session.h:667-705 | in every reachable state a fill at the head of the channel is for the next number and is taken, or is for a number already taken and ends the session; it levels the two if and only if it is the former and the sender has used no number since |
| Link.FillRecovers | include/llfix/fix_client.h:1182-1222 | in every reachable state, answering a request and taking the answer levels the two if and only if the request was for the next number, and ends the session if and only if not |
| Link.RequestArrives | include/llfix/fix_client.h:1133-1160 | the owed request goes out and reaches the sender, asking for the receiver's next number |
| Link.RecoveryExact | include/llfix/fix_client.h:1133-1160 | request, any number of further sends all lost, fill: equal numbers and logged on if and only if the request was for the next number, disconnected if and only if not |
| Link.GapFillRecovers | include/llfix/fix_client.h:1133-1160 | the same at the end of every run from two fresh ends |
| Link.GapsTaken | include/llfix/fix_client.h:1522-1540 | taking any number of messages behind a gap moves no number and leaves a request for the next one owed |
| Link.GapExact | include/llfix/fix_client.h:1522-1560 | from the step that takes the gapped message on: the first exchange always levels the two; a second request is owed if and only if a message was taken after the first went out, and it ends the session |
| Link.StaleRequestReached | include/llfix/fix_client.h:1133-1160 | a concrete run from two fresh ends: three orders, the first lost, in which the recovered session is then ended by its own second request |
| Link.LogonAsGap | include/llfix/fix_server.h:2205-2223 | a gapped logon leaves the server exactly where any gapped message leaves a logged-on receiver |
| Link.LogonExchanged | include/llfix/fix_server.h:840-871 | the logon taken, answered and the answer taken: both logged on, the server's number unchanged and its next number owed |
| Link.GappedLogonRecovers | include/llfix/fix_server.h:1501-1528 | after a logon with a number too high, request and fill end the two level, whatever is lost in between |
| Link.GappedLogonReached | include/llfix/fix_server.h:2050-2110 | such a logon arises in a run: number 9 at a server that has seen 4 |
| CatchUp.ReplayCatchesUp | include/llfix/fix_client.h:777-798 | uninterrupted replay of e..last takes a receiver at e-1 to exactly last, delivering each message once and in order |
| CatchUp.ReplayEndsRecovery | include/llfix/fix_client.h:1553-1560 | the receiver is in retransmission up to the number that revealed the gap and logged on from it on |
| CatchUp.RecoveredState | include/llfix/fix_client.h:1553-1560 | the same with session-level messages in the replay: logged on once that number is reached |
| CatchUp.ReplayRecovers | include/llfix/fix_client.h:1182-1222 | from the gap on: the request of a gapped receiver, answered by a sender that replays and has everything, ends with each message delivered once and both sides level |
| CatchUp.ReplayedAdminExact | include/llfix/fix_session.h:685-689 | where a stale replayed session-level message leaves the receiver, and exactly when that passes the sender |
| CatchUp.ReplayedContent | include/llfix/outgoing_fix_message.h:573-682 | a parsed replay has the groups of the parsed original and all its fields but 9, 10, 52 and the marks, 122 holding the old 52 |
| CatchUp.ReplayConveys | include/llfix/fix_client.h:777-798 | so the receiver's session code sees the same type, number and content, or for a session-level message a SequenceReset to the next number |
| CatchUp.ReplayReady | include/llfix/fix_client.h:777-798 | a message that was fit to be sent is fit to be resent: encodable, well grouped, without repeated tags |
| CatchUp.ReplayedView | include/llfix/fix_client.h:777-798 | the bytes of a replayed message are framed, accepted, valid and in step for the receiver |
| CatchUp.ReplayOverTheWire | include/llfix/fix_client.h:777-798 | from stored messages through arbitrary chunks to the receiver's counter at last, no bytes left over, each message delivered once, in order and with its original content |
| CatchUp.ReplayTags | include/llfix/fix_client.h:777-798 | the tags of a parsed replay are exactly the header, static, added and own ones |
| CatchUp.ResentAs | include/llfix/fix_utilities.h:122-145 | types 0, 1, 2, 4, 5 and A, and only these, are resent as a type 4 with 36 the next number and nothing of their own; every other type arrives with its type and all its fields |
| CatchUp.ResentExamples | include/llfix/fix_utilities.h:134-144 | an ExecutionReport and a Reject arrive as they were, a Heartbeat as a SequenceReset |
| CatchUp.ReplayedIsSent | include/llfix/fix_client.h:777-798 | what the session machine calls the resent message is what the receiver reads from its bytes |
| CatchUp.SmallIsResendable | include/llfix/fix_client.h:777-798 | any one-character type with one short field meets every condition of the replay theorems, under every number |
| CatchUp.SmallRejectedWithLastProcessed | include/llfix/outgoing_fix_message.h:654-660 | with tag 369 on, every replay of such a message that is not session-level is rejected |
| SessionMessages.SentAndRead | include/llfix/fix_session.h:580-665 | a message the session builds is accepted by its peer, and the tags the session code reads are those of its body |
| SessionMessages.GapFillOnWire | include/llfix/fix_session.h:639-652 | handling the bytes of a gap fill is receiving the gap fill of the session machine, in every state of the peer |
| SessionMessages.ResetOnWire | include/llfix/fix_session.h:654-665 | the same for a hard reset |
| SessionMessages.ResendRequestOnWire | include/llfix/fix_session.h:599-604 | the same for a resend request, 7 the first number wanted and 16 zero |
| SessionMessages.TestRequestOnWire | include/llfix/fix_session.h:592-597 | the same for a test request |
| SessionMessages.HeartbeatOnWire | include/llfix/fix_session.h:582-590 | the same for a heartbeat |
| SessionMessages.AllSendable | include/llfix/fix_session.h:580-665 | each of them can be sent by a session with short names and no groups |
| Connectors.FixServerConnectors.HasPeer | include/llfix/fix_server.h:89-99 | true exactly when some session is bound to the peer |
| Connectors.FixServerConnectors.Update | include/llfix/fix_server.h:101-118 | the whole new pair of tables, dropping the session's former peer |
| Connectors.FixServerConnectors.GetSession | include/llfix/fix_server.h:120-130 | the bound session, or none |
| Connectors.FixServerConnectors.GetPeerIndex | include/llfix/fix_server.h:132-142 | the peer bound to the session, or size_t(-1) when there is none |
| Connectors.FixServerConnectors.OnClientDisconnected | include/llfix/fix_server.h:909-927 | removes exactly the peer's binding, or nothing when there is none |
| Connectors.FixServerConnectors.OnMessage | include/llfix/fix_server.h:1983-1994 | a session is bound only to a peer that has none |
| Connectors.UpdateExact | include/llfix/fix_server.h:101-118 | update keeps the tables inverse if and only if the peer is new or has this session |
| Connectors.RemoveExact | include/llfix/fix_server.h:144-150 | remove keeps them inverse if and only if the pair is bound or both are absent |
| Connectors.RunInverse | include/llfix/fix_server.h:909-927 | after every sequence of connects and disconnects the tables are mutual inverses |
| Connectors.BoundIffLive | include/llfix/fix_server.h:89-150 | a peer has a session if and only if one of their logons has been ended neither by the peer leaving nor by the session moving |

## Left out

- Transports, reactors, threads, locks, TLS and CPU pinning: receiving is a chunk of bytes, sending a success flag.
- Settings files, the management server, `engine.h`, tools, examples and benchmarks.
- Throttling, schedules, message persistence and the serialiser's file format: stored messages are a map from number to message.
- Staleness of SendingTime and dictionary validation: `Validate` is `validate_fix_message` with both switched off. `validations_enabled = false` is not modelled.
- Binary fields (`LLFIX_ENABLE_BINARY_FIELDS`).
- The heartbeat timer and the text of rejects, logons and logouts: as messages they are ordinary sends, which `Runs` and `Link` allow at any moment. The id a test request asks to be echoed is not kept in the session state.
- Logon handling beyond the state changes and the number check: `validate_logon_request`, reset-on-logon and the reconnect sequence. `accept_session` appears only as the hand-over of a parsed logon and the table update.
- Endpoint.FixClient.MessageLoop: one clock reading for a receive call; a connection lost while a reply is being sent, and the overlap of source and target when the transport keeps the incomplete bytes, are not modelled. The server's loop adds `accept_session`.
- Framer.FindDelimiterFromEnd: the loop form; the `memrchr` form is taken to find the same delimiter.
- IncomingMessage.Message.SetTag: the dictionary's hashing is a sequence of nodes with distinct keys; value cells are not shared with an object cache.
- Outgoing.Builder.Encode: the caller's buffer is taken to be large enough and the body shorter than 2^31 bytes, neither of which the source checks.
- Outgoing.Builder.SetTag: takes the text of a value; the conversion of doubles, timestamps and other types to text is not modelled.
- Replay.LoadFromBuffer: a MsgType of several characters is copied as a C string; what follows it in the reused cell is the parameter `stale`, and the replay theorems ask for one character or an empty `stale`.
- Replay.TypeKeptExact: values shorter than the cell's 64 bytes; a cell grown for a longer value holds bytes the source does not initialise.
- Replay.ReplayPreservesMeaning: tag 369 off, since with it on every replay is rejected.
- GroupSpecs.UnpackPacked: the source asserts 1 to 4 characters; beyond that it shifts a uint32_t by 32 bits or more, which is undefined. `PackMessageType` ignores the further characters, so what the parser theorems say about groups holds of the source for types of 1 to 4 characters.
- Loader.SpecLoader.Load: every group name is a defined field, because the source's lookup of an undefined one inserts a default field of a class that is not part of this model; undefined components and fields are skipped as in the source, but the list of load errors and the required flags for the validator are not kept.
- Session.FixSession.ProcessIncoming: rejects, logouts and disconnect side effects are separate sends; the outcome says which branch was taken.
- Session.FixSession.RespondToResendRequest: asks for an outgoing number below 2^32 - 1; at the last value the source's uint32_t replay loop would not end.
- Runs.EndpointRun: administrative changes of the incoming number and resets at logon are outside the runs.
- Link.LinkSafety: both ends are past PENDING_LOGON, answer by gap fill and make no administrative reset; replay is covered for one uninterrupted recovery by the theorems of `CatchUp`, and `CatchUp.ReplayedAdminExact` shows why not beyond it.
- Link.GapFillRecovers: the fill is the next message the receiver takes, and the sender's number stays below 2^32 - 2.
- Connectors.RunInverse: each connect and disconnect is atomic.
