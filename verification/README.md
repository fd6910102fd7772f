# TinyMsg, verified

TinyMsg is a small peer-to-peer messenger written in C, with a tracker through which its
peers find each other. This project models its five layers in Dafny 4.11 and proves what
they promise, over every input, every run and every schedule:

* the flat memory layer (`clib.c`): a bump allocator over one byte array and growable
  buffers that are windows into it;
* the codec (`cnet.c`): messages packed and unpacked by a format string;
* the stream layer (`cnet.c`, `tmcommon.c`, `tmtracker.c`, `tm.c`): partial sends with a
  queue of unsent bytes, and the receive loop that cuts a byte stream into messages;
* the membership protocol (`tmtracker.c`, `tmcommon.c`, `tm.c`): how the tracker's peer
  table reaches the peers lists of the clients;
* the text layer (`clib.c`, `tm.c`): splitting, joining and tokenizing.

`dafny verify dfyconfig.toml` checks everything. What the operating system answers (accepted
byte counts, received chunks, ready descriptors, new descriptors) is an input of the model,
so that every theorem holds for all of its answers.

## Where to look first

* `Membership.PeersShown`: in every reachable state of the tracker and any number of clients
  that come and go, working off a registered client's idle queue and inbox leaves in its
  peers list exactly the tracker's active peers without itself, each under the names and the
  address the tracker has for it.
* `Membership.CanCatchUp`: from every such state the client can get there by itself.
* `Streams.StreamOfConnection`: over any run of the tracker's select loop, the messages
  handled from a connection are those of the byte stream that arrived on it, however it was
  cut up and whatever was served in between.
* `EndToEnd.Delivery` and `EndToEnd.TrackerToPeer`: from `send_msg_to_hostaddr` to
  `handle_msg` nothing is lost, doubled or reordered.
* `Tracker.Tracker.Scan`: one pass of the select loop serves exactly the ready descriptors,
  in increasing order, each with its context still in the table, although the bound of the
  scan and the table change while it runs.
* `Passes.PassFlushes`, `Passes.RunFlushes`: over a pass every descriptor reported for writing
  is flushed exactly once, and over a run its socket gets what the flushes took, in order.
* `Passes.AcceptedStream`: from the step that accepts a connection, its stream is handled as
  messages from the address it came from.
* `Reader.Scan`: the same pass in memory, with the buffers of all connections and their array
  in one arena, in which the handlers allocate while the message they handle lies there, and
  with names and messages in a scratch arena passed by value, has exactly the effect of the
  value model (`SocketTable`, `Scratch`, `Handler`, `Reader`).
* `Runs.RunProper`, `Runs.LoopIsRun`: what every step of the select loop keeps, over any number
  of passes.
* `Relay.RunArrives`, `Relay.RequestsArrive`: over any run of the tracker, from the bytes of
  the requests that arrive to the state of a client that gets the bytes of the news.
* `Format.RoundTrip`: packing and unpacking, with the exact condition under which they are
  inverse.

## Modules

| file | content |
|---|---|
| `Bytes`, `Memory`, `Growth` | big-endian integers; `Arena` and `Buffer` over a byte array; how much arena space a buffer takes |
| `Format`, `Pack` | the wire format as functions; the loops of `cnet.c` proved against them |
| `Framing`, `Net`, `EndToEnd` | the receive loop as a function of the stream; `NetRecv`, `NetSend`; one connection with both ends |
| `Lists`, `Sockets`, `SocketTable` | searching a list; the contexts as values; the same contexts with their buffers in one arena |
| `Peers`, `HostAddr`, `Messages`, `Protocol` | the peer table; addresses; the messages; who is told what |
| `Descriptors`, `Conservation`, `Tracker`, `Streams`, `Runs`, `Passes` | the select loop, what each step of it keeps, whole runs of it, and what a pass accepts, flushes and closes |
| `Scratch`, `Handler`, `Reader` | packing and sending from a scratch arena; the message handler in memory; the select loop in memory |
| `Client`, `Membership`, `Relay` | the client's handler and idle callbacks; the system of tracker, clients and network; the way of the news through it |
| `Arrays`, `StrMap`, `Split`, `Tokenizer` | the growable array, the string map, splitting and joining, the command tokenizer |

Code that changes things in place is a class or a method with loops (`Memory.Arena`,
`Memory.Buffer`, `SocketTable.Table`, `Peers.PeerTable`, `Tracker.Tracker`, `Client.Client`,
`StrMap.Map`, `Arrays.Array`, the packing, sending and scanning loops); its contracts equate
the new state with a function of the old one, and the theorems are about these functions.

An abort of the program (an arena that is used up, an assertion that fails) is an
out-parameter `ok` that is false, or a null buffer; the contract says when.

## Where the code does less than it seems to

These are results about the code as it stands; each is an exact condition.

* A trailing empty string is not stored by `NetUnpack`, which returns before it
  (`cnet.c:530`). Packing and unpacking are inverse if and only if the variable of such a
  string was empty before (`Format.RoundTrip`), as it is in every caller.
* Numbers are kept modulo their width, `%l` modulo 2^32 although the variable has 64 bits,
  and only the first `length % 65536` bytes of a string are packed
  (`Format.ConvertedInRange`).
* A frame announces its body if and only if the body is shorter than 65536 bytes
  (`Pack.LengthPatchedIsFrame`). Sending is narrower: `send_msg_to_hostaddr` takes the length
  of the whole frame as 16 bits, so a body arrives if and only if it is shorter than 65534
  bytes (`Pack.PassedIsFrame`); of the frame of a body of 65534 bytes nothing is sent at all.
  PEER_ONLINE passes if and only if alias and host name have at most 65512 bytes together
  (`Messages.NewsFramed`). A KNOCK gets through with up to 65528 (`Messages.KnockFramed`), and
  one with more than 65512 makes the tracker send every active peer a few bytes that are no
  frame (`Tracker.NewsTooLong`). Such a KNOCK comes from another sender: the client packs its
  own in 4 KiB of scratch.
* A message for a destination whose queue has drained is queued, is not watched for writing,
  and is never sent: what is queued is watched if and only if it was before or the connection
  is new (`Descriptors.SendWatched`), and what is not watched stays queued for the rest of any
  run (`Streams.IdleForever`, `Streams.NeverSent`).
* After such a drain the loop is in this state: when a queue is sent, or its connection fails,
  the context stays in the table and is not watched any longer (`Streams.DrainedStays`).
* `StringSplit` aborts where its array and the copies of the tokens do not fit in the arena, and
  for a string of 65535 separators of one character, because the capacity 65536 wraps to 0
  (`Split.StringSplit`).
* `ArrayAppend` and `MapSet` abort where the arena has no room for the doubled store, or where
  doubling overflows the 16-bit capacity (`Arrays.Array.Append`, `StrMap.Map.Set`).
* `tokenize_command` appends a token character by character, and each time leaves the string so
  far behind in the arena: a token of n characters takes n(n+3)/2 bytes. It aborts if and only
  if that, and the arrays, do not fit, or there are more than 32768 tokens
  (`Tokenizer.TokenizeCommand`). In the 4096 bytes of the client's shell scratch a command of
  one token fits if and only if it has at most 84 characters (`Tokenizer.OneToken`).
* A peer table takes 512 entries; one more and the arena of the peers is used up
  (`Peers.PeerTable.CreatePeer`). In a system of at most 512 clients this never happens
  (`Membership.TablesFit`).
* Printing the peers aborts before there was ever one: at the tracker with a BYE, at a client
  with a PEER_OFFLINE (`Tracker.HandledUp`, `Client.Client.HandleMsg`). At a client of this
  system it never happens (`Membership.NoAssertFails`).

## Assumptions

* In `Membership`, and nowhere else: no send to a listening client fails, what was sent to it
  all arrives, and in the order of sending also where it takes several connections. Messages
  to a client that does not listen are lost.
* No two clients listen at the same place. A client sends KNOCK with the port it listens on
  when it starts, BYE when it stops, and starts again only after its BYE was handled. Names
  are C strings.
* The requests of one client are handled in the order in which it sent them.
* There are at most 512 clients, so that no peer table is ever full (`Membership.TablesFit`).
* The operating system never hands out a descriptor that is in use; connections come from
  addresses other than 0.0.0.0; each handler and each callback is one atomic step.
* The byte order of the machine is little-endian.
* The contexts' array stays where it is while a handler runs, so that pointers into it stay
  good. `Handler.HandleMsg` proves that it does where there is room for as many more contexts
  as there are sends; it starts with room for 64. Where it moves, the program would go on with
  the old copy of the context whose message is handled, which the model does not follow.

## Model

| member | source | states |
|---|---|---|
| Bytes.ValueOfBigEndian | cnet.c:372-394 | writing an integer on `w` bytes, highest shift first, and reading it back keeps it modulo 256^w |
| Bytes.BigEndianOfValue | cnet.c:478-522 | reading bytes as an integer and writing it on as many bytes gives the same bytes |
| Bytes.Digit | cnet.c:372-394 | the bytes of the big-endian form are the ones that the right shifts select |
| Bytes.ValueSum | cnet.c:478-522 | bytes in front of others count 256 to the number of those, and are added to them |
| Memory.GrownShape | clib.c:303-311 | doubling stops at a capacity below twice the need, and doubles only where the need exceeds the capacity |
| Memory.GrownTwice | clib.c:303-311 | growing for fewer bytes first makes no difference to the final capacity |
| Memory.Arena.New | clib.c:57-65 | a new arena is empty, zeroed, and of 1024 bytes where no size is given |
| Memory.Arena.Copy | clib.h:27-31 | an arena passed by value shares the bytes, starts at the owner's position and holds no buffers |
| Memory.Arena.Alloc | clib.c:80-88 | hands out the next block, or aborts exactly where it does not fit |
| Memory.Arena.NewBuffer | clib.c:286-295 | a new empty buffer behind everything live, or an abort exactly where it does not fit |
| Memory.Arena.Reset | clib.c:77-79 | is only reached with no buffer in use, and gives the whole arena back |
| Memory.MoveDown | clib.c:329-331 | the overlapping move to the front copies every byte as it was before the move |
| Memory.Buffer.Clear | clib.c:296-299 | empties the buffer, every other live buffer keeps its contents |
| Memory.Buffer.Fit | clib.c:303-312 | the doubling loop ends at the first capacity that fits; the contents survive the move; aborts exactly where the arena is used up |
| Memory.Buffer.Append | clib.c:300-316 | the contents are the old ones and the data, in the capacity reached by doubling; aborts exactly where the arena is used up, then with nothing changed; every other live buffer keeps its contents |
| Memory.Buffer.Shift | clib.c:324-334 | drops exactly the first n bytes in place and clears what is behind the rest; every other live buffer keeps its contents |
| Memory.ExtendedTwice | clib.c:300-316 | appends compose: contents, final capacity and arena use are as for one append of everything |
| Growth.GrowthBound | clib.c:286-334 | over any run of appends and shifts the capacity is the initial one times a power of two, is the initial one or below twice the longest contents, and all ranges ever taken add up to at most 2 * cap - initial |
| Growth.RunOn | clib.c:286-334 | a buffer in an arena that the run is done to has the length, capacity, contents and arena use of that run; it aborts exactly where the arena has no room for them |
| Format.CString | clib.h:10-10 | what C functions see of some bytes is the part in front of the first terminator |
| Format.RoundTrip | cnet.c:353-541 | for every format and matching arguments, unpacking what was packed never reads behind the end, and recovers every argument as converted by its field if and only if a string that is packed last and empty had an empty variable |
| Format.ConvertedInRange | cnet.c:368-402 | the conversion to the fields keeps all arguments if and only if each is in the range of its field |
| Format.DecodedText | cnet.c:453-541 | whatever is unpacked, the strings that are stored have together no more bytes than the message |
| Format.RoundTripFresh | tm.c:527-531 | into strings that start empty, as in every caller, arguments in range come back exactly |
| Format.NothingPacked | cnet.c:357-409 | a format that packs no bytes asks for no argument |
| Format.PacksNumber | cnet.c:368-394 | `%b`, `%w`, `%l`, `%L` pack the low 1, 2, 4, 8 bytes of their argument, highest first, and go on with the rest of the format |
| Format.PacksText | cnet.c:395-402 | `%s` packs two bytes of length, modulo 65536, and as many bytes |
| Format.PacksOther | cnet.c:357-409 | any other spec packs nothing and asks for no argument, any other character packs itself |
| Format.EndsInNumber | cnet.c:473-522 | a message that ends within a number: the bytes that are there fill the high places, zeros the low ones, and no field behind is stored |
| Format.EndsInText | cnet.c:523-537 | a string is stored only where a byte follows its length, and nothing behind it is otherwise; a length that points behind the message is an overread |
| Pack.PackNumber | cnet.c:372-394 | appends the big-endian form of the number, byte by byte |
| Pack.PackText | cnet.c:395-402 | appends the 16-bit length and as many bytes of the string |
| Pack.NetPackV | cnet.c:353-412 | the two-state loop over the format appends exactly the encoding of the arguments to the buffer and returns its length; it aborts only where the arena has no room for it |
| Pack.LengthPatchedIsFrame | cnet.c:426-439 | writing the 16-bit length back in front of the body yields a frame that announces its body if and only if the body has fewer than 65536 bytes |
| Pack.FrameBytes | cnet.c:434-436 | the frame in bytes: length / 256, length % 256, body |
| Pack.PatchedBytes | cnet.c:434-436 | for a body of any length, which two bytes the length is written over, and that no other byte is |
| Pack.PassedIsFrame | tmcommon.c:198-198 | what is sent for a body is its frame if and only if the body has fewer than 65534 bytes |
| Pack.NetPackLenV | cnet.c:426-439 | whatever the buffer held and however it grew while packing: the old contents, then the patched block; returns body length plus 2; other live buffers keep their contents |
| Pack.UnpackNumber | cnet.c:473-522 | reads as many bytes as there are into the high places of the number |
| Pack.UnpackText | cnet.c:523-532 | a string is stored only where a byte follows its length; then exactly the announced bytes |
| Pack.NetUnpack | cnet.c:453-541 | the two-state loop leaves in the variables what the functional decoder says, and never moves past the end unless a string length points there |
| Framing.DrainMore | tmtracker.c:143-169 | draining a longer buffer continues exactly where draining the shorter one stopped |
| Framing.ChunkIndependence | tmtracker.c:139-169 | for every way of cutting a stream into chunks: the same messages, the same end-of-stream verdict and, while open, the same pending length and unread bytes as for the whole stream |
| Framing.DeframeOfFrames | tm.c:465-495 | for every list of messages that can be framed, and any incomplete rest behind them, exactly these messages come out and the rest is held |
| Framing.FramesOfDeframe | tmtracker.c:143-169 | every stream is the frames of what is handed on followed by what is still held, and all messages handed on are non-empty and below 65536 bytes |
| Framing.PrefixDelivered | tmtracker.c:143-169 | from any part of a stream of frames come the first messages sent, in order; all of them if and only if nothing is missing |
| Framing.DrainNonEmpty | tmtracker.c:150-153 | no empty message is ever handed on |
| Net.NetRecv | cnet.c:261-280 | whatever the socket answers, exactly the received bytes are appended, with the result that the answers decide (`Net.ReceivedUntil`) |
| Net.ReceivedUntil | cnet.c:261-280 | the first answer that is neither bytes nor an interruption decides: 0 if and only if it is the end of the file, -1 if and only if it is an error, 1 if and only if it is that nothing is there, or there is no such answer; in each case the bytes are all the pieces in front of it, in order |
| Net.SentCount | cnet.c:286-304 | the result is 0 if and only if the socket took everything |
| Net.SentUntil | cnet.c:286-304 | the first answer that is neither an acceptance nor an interruption stops it: 0 if and only if all bytes are taken in front of it; otherwise what is taken is the sum of what was accepted there, with -1 exactly for an error |
| Net.NetSend | cnet.c:286-304 | whatever the socket answers, what it took is the front of the buffer and the buffer keeps exactly the rest; other live buffers keep their contents |
| Net.NetSend2 | cnet.c:306-317 | the same, and the descriptor is watched for writing if and only if bytes are left; an error leaves the sets alone |
| EndToEnd.ConcatFramed | cnet.c:426-439 | the messages handed to the sender one by one are the frames of their bodies |
| EndToEnd.NextConsistent | tmcommon.c:198-244 | every step of sender, network or receiver keeps: frames of all messages sent = bytes received, then on the wire, then queued |
| EndToEnd.Delivery | tmtracker.c:139-169 | for any schedule of sends, flushes and receives, the messages handled are a prefix of those sent, and all of them if and only if queue and wire are empty; then nothing is left unread |
| EndToEnd.CanArrive | tmtracker.c:93-220 | from every reachable state flushes and receives can deliver every message sent, without another being sent |
| EndToEnd.TrackerToPeer | tmcommon.c:198-244 | for a connection of the tracker in any state and any chunking at the receiver: the messages handled are the first ones handed over, and all of them exactly when nothing is on the way |
| Sockets.FindFd | tmcommon.c:39-54 | the first context with the descriptor, or -1 exactly where there is none |
| Sockets.FindTo | tmcommon.c:55-70 | the first context with the destination, or -1 exactly where there is none |
| Sockets.SendQueues | tmcommon.c:198-206 | a destination with a connection: the result is 1, the message joins the end of its queue, and no other context or watched descriptor changes |
| Sockets.SendOpens | tmcommon.c:208-243 | any other destination: the result is -1 if and only if there is no socket, no connection, or the send fails, else 0; a context, with exactly what the socket did not take, is added if and only if bytes are left; then it is watched |
| Sockets.AnswerIs | tmcommon.c:209-211 | what the operating system answers is taken as it is, but for a descriptor that is open already |
| SocketTable.PlacedAdd | tmcommon.c:22-38 | adding a context keeps: every context has two buffers of its own and no live buffer is without a context |
| SocketTable.PlacedRemove | tmcommon.c:71-75 | removing a context keeps it, too |
| SocketTable.Table.Separated | clib.c:80-88 | in every state of the table the reserved ranges of any two buffers of any contexts do not overlap |
| SocketTable.Table.StillValid | clib.c:286-334 | an operation on the buffers of one context shows in no other context |
| SocketTable.Table.NewCtx | tmcommon.c:22-38 | adds a context with two empty buffers behind the others, in an array that doubles in the arena exactly when it is full, and leaves the others as they are; aborts exactly where buffers and array do not fit |
| SocketTable.Table.CloseAndRemove | tmtracker.c:175-183 | exactly the one context goes, the others stay as they are; behind the last one the arena is reset to a new array, which is safe because none of its buffers is left |
| SocketTable.Table.FindByFd | tmcommon.c:39-54 | the first context with the descriptor, or -1 exactly where there is none |
| SocketTable.Table.Queue | tmcommon.c:202-206 | the message is added to one context's unsent bytes and shows nowhere else |
| SocketTable.Table.Receive | tmtracker.c:139-141 | what has arrived is added to one context's unread bytes and shows nowhere else; an abort needs a crowded arena |
| SocketTable.Table.DeframeAll | tmtracker.c:143-169 | the receive loop over the buffer in the arena hands on exactly what draining the stream does, and leaves exactly what it leaves; the unread bytes decrease |
| SocketTable.Table.Flush | tmtracker.c:196-196 | the socket took the front of the queue, the context keeps the rest, and is watched for writing if and only if there is one |
| SocketTable.Table.ClearWrite | tmtracker.c:201-205 | what could not be sent is dropped from one context and nothing else changes |
| SocketTable.Table.SendFromScratch | tmcommon.c:222-225 | sends from a buffer in a copy of the scratch arena: everything below the caller's position stays as it is; aborts exactly where the copy has no room |
| SocketTable.Table.SendMsgToHostaddr | tmcommon.c:198-244 | contexts, watched descriptors and result are as the value model says, on every path; at most one context is added, behind the others, and the array moves only if it was full; the unsent tail is copied out of scratch; the caller's scratch bytes and position are unchanged; aborts exactly where the queue of the destination cannot take the message, or there is no room for a copy in scratch, or for a context with what a new socket does not take |
| Conservation.SendConserves | tmcommon.c:198-244 | on every descriptor, the bytes the socket took followed by the queue stay the concatenation of all messages handed over since the connection opened, whether a message is queued, taken whole by a new socket, or its unsent tail is taken over |
| Conservation.FlushConserves | tmtracker.c:196-205 | a flush keeps that account; only a connection with a send error leaves it |
| Descriptors.ReadyIsFound | tmtracker.c:132-137 | in every state of the select loop a descriptor that may be reported is in the table, belongs to an accepted connection if it is watched for reading, and is watched for one of the two only |
| Descriptors.SendKeeps | tmcommon.c:198-244 | a send keeps descriptors distinct, the watched sets disjoint and within the table, and maxfd above both; it moves no context and unwatches nothing |
| Descriptors.AcceptKeeps | tmtracker.c:125-128 | an accepted connection keeps it |
| Descriptors.CloseKeeps | tmtracker.c:170-177 | a closed connection keeps it |
| Descriptors.FlushKeeps | tmtracker.c:196-205 | a flush keeps it |
| Descriptors.SendWatched | tmcommon.c:202-241 | after a send, what is queued for the destination is watched for writing if and only if it was watched before or the connection is new and pending |
| Peers.StaticCopy | clib.c:45-55 | the source where it fits in front of the terminator, else as much of its front as fits |
| Peers.NamesCut | tmcommon.c:113-123 | a new peer is active and has alias and host name as they came, or their first 16 bytes |
| Peers.AsMapEntry | tmcommon.c:178-196 | every entry of the table is what the map has under its address |
| Peers.CreateInMap | tmcommon.c:131-151 | creating a peer sets its address in the map, under the handle it had or the next unused one, with the names cut to fit |
| Peers.DestroyInMap | tmcommon.c:152-163 | destroying a peer turns off exactly the one entry with the handle and removes nothing |
| Peers.AsMapSize | tmcommon.c:131-151 | the map has as many addresses as the table has entries, so no address is entered twice |
| Peers.PeerTable.CreatePeer | tmcommon.c:131-151 | entry i has handle i+1, the next handle is one more than the length, and addresses stay unique; the result is the handle of the address; older handles keep their meaning; aborts exactly for a new address in a table of 512 |
| Peers.PeerTable.MorePeers | tmcommon.c:131-151 | the arrays for 64, 128, 256 and 512 peers fit in the 64 KiB of the peers' arena, and the next one does not |
| Peers.PeerTable.DestroyPeer | tmcommon.c:152-163 | turns off the entry with the handle, if there is one; every handle keeps its meaning |
| Peers.PeerTable.FindPeerFromaddr | tmcommon.c:164-171 | the handle under which the map has the address, or -1 exactly where it has none |
| Peers.PeerTable.GetPeerData | tmcommon.c:180-196 | finds exactly the handles that were given out, with the data the map has |
| HostAddr.RoundTrip | cnet.c:16-34 | packing IP and port into 64 bits keeps both |
| HostAddr.Layout | cnet.c:16-34 | the 64-bit integer has the IP in its low four bytes, the port in the two above them, and zeros in the highest two |
| HostAddr.HtonsInverse | tmtracker.c:239-239 | swapping the bytes of a port twice gives the port |
| HostAddr.HtonsInMemory | tmtracker.c:239-239 | the two bytes of the result in memory are the big-endian form of the number |
| HostAddr.ListenAddress | tmtracker.c:237-240 | the announced listening address has the IP of the sender, and the two bytes of its port in memory are the big-endian form of the announced port |
| Messages.Formats | tmtracker.c:233-270 | what the format strings of the protocol mean |
| Messages.NewsOnWire | tmtracker.c:244-271 | the tracker's messages byte for byte: 1, alias, host name, and both addresses in 8 bytes; 2 and the address; each name behind its two bytes of length |
| Messages.RequestOnWire | tmtracker.c:229-261 | the client's: 3, alias, host name and the port in 2 bytes; 4 alone |
| Messages.BodyLength | tmtracker.c:244-270 | the length and the first byte of every message the tracker packs |
| Messages.NewsFramed | tmtracker.c:244-271 | news is sent as a frame if and only if alias and host name have at most 65512 bytes together |
| Messages.KnockFramed | tm.c:585-588 | a KNOCK can be framed if and only if alias and host name have at most 65528 bytes together |
| Messages.OnlineRoundTrip | tm.c:527-531 | a client unpacks exactly the PEER_ONLINE that was packed |
| Messages.OfflineRoundTrip | tm.c:545-546 | a client unpacks exactly the PEER_OFFLINE that was packed |
| Messages.KnockRoundTrip | tmtracker.c:230-233 | the tracker unpacks exactly the KNOCK that a peer packed |
| Protocol.KnockTells | tmtracker.c:237-259 | any knock, also from a peer that is active: first every active peer is told of the sender under the names as they came, then the sender of every active peer under the names in the table, both in table order; afterwards the sender is active under its address and no other entry has changed |
| Protocol.ByeTells | tmtracker.c:261-271 | any goodbye: exactly the sender's entry is turned off, then exactly those who are active are told, in table order |
| Tracker.ReactionToRequest | tmtracker.c:227-274 | a request that a peer packed has exactly the effect the protocol gives it, on the table and on what is sent |
| Tracker.NewsTooLong | tmtracker.c:242-245 | for every KNOCK with names of 65513 to 65528 bytes, what every active peer is sent is not the frame of its PEER_ONLINE but at most 15 bytes of it |
| Tracker.SendOneQueues | tmcommon.c:198-206 | a send on a connection of the tracker: the message joins its queue, and the account of what was handed over on its descriptor |
| Tracker.SendOneOpens | tmcommon.c:208-243 | a send that opens one: the account starts with the message, and with what the socket took of it |
| Tracker.OthersIgnored | tmtracker.c:227-274 | a message of any other number, and a KNOCK that announces more than it has, change nothing |
| Tracker.HandledWithRx | tmtracker.c:160-165 | what a connection has unread makes no difference to how a message is handled |
| Tracker.HandledUp | tmcommon.c:94-151 | with a table of at most 512 the tracker survives a message, unless it is a BYE before there was ever a peer, or a KNOCK that can be unpacked from an address that is not in a full table |
| Tracker.AscendingLists | tmtracker.c:106-107 | the order in which a scan serves lists every ready descriptor once, increasing |
| Tracker.Tracker.Send | tmcommon.c:198-244 | one send has the effect of the value model and keeps the tables sound and the account of sent bytes |
| Tracker.Tracker.SendToPeers | tmcommon.c:246-253 | the message goes to every active peer, in table order, and to nobody else |
| Tracker.Tracker.Introduce | tmtracker.c:237-259 | the active peers hear of the newcomer, the newcomer of every active peer, and then it joins the table |
| Tracker.Tracker.HandleBye | tmtracker.c:261-271 | the peer leaves first, then those who stay hear of it |
| Tracker.Tracker.HandleMsg | tmtracker.c:227-274 | table, contexts and watched descriptors are as the reaction to the message says; aborts exactly for a BYE before there was ever a peer and for a newcomer when the table is full; no context moves and nothing is unwatched |
| Tracker.Tracker.Deframe | tmtracker.c:143-169 | the receive loop, in which handlers add contexts and queue bytes, has the effect of handling the drained messages one after the other and then leaving the rest unread |
| Tracker.Tracker.ReadReady | tmtracker.c:130-184 | the descriptor is found in the table; everything that arrived is handled, also with the end of file; the connection goes exactly if it ended |
| Tracker.Tracker.WriteReady | tmtracker.c:187-217 | the descriptor is found in the table; it stays watched exactly if bytes are left; an error clears the queue |
| Tracker.Tracker.Accept | tmtracker.c:108-129 | only IPv4 connections join, watched for reading |
| Tracker.Tracker.Scan | tmtracker.c:106-219 | the scan with its moving bound has exactly the effect of serving all ready descriptors in increasing order, each once, with its context still in the table |
| Streams.ReadHandles | tmtracker.c:139-169 | reading from a connection handles exactly the messages that its unread bytes and the new ones make |
| Streams.ServeKeepsOther | tmtracker.c:106-219 | serving any other descriptor leaves a connection watched, in the table and with the same bytes unread |
| Streams.StreamOfConnection | tmtracker.c:93-220 | over any run, the messages handled from a connection are those of the whole stream that arrived on it, also with the bytes that come with its end; while it is open the pending length and unread bytes are those of the stream |
| Streams.IdleForever | tmtracker.c:93-220 | over any run in which only watched descriptors are reported, a connection that is not watched keeps its queue |
| Streams.NeverSent | tmcommon.c:202-206 | so a message for a connection that is not watched is queued and never sent |
| Streams.DrainedStays | tmtracker.c:187-217 | a flush that leaves nothing pending, or fails, leaves the destination's context in the table and not watched, which is where `NeverSent` starts |
| Streams.ScanIsRun | tmtracker.c:106-219 | serving a list of descriptors is a run of single steps |
| Runs.RunProper | tmtracker.c:93-220 | over every run in which descriptors are reported only for what they are watched for: every watched descriptor has its one context, and the account of sent bytes balances on every connection |
| Runs.ReactionProper | tmtracker.c:227-274 | whatever bytes a message has, what is sent for it goes to somebody |
| Runs.ServeWatches | tmtracker.c:106-219 | serving one descriptor, with all the handling and sending that goes with it, unwatches no other |
| Runs.PassIsRun | tmtracker.c:106-219 | what select reports at the start of a pass is still watched when its turn comes, so that a pass is a run of honest steps and keeps the invariant |
| Runs.LoopIsRun | tmtracker.c:93-220 | the select loop, pass by pass, is such a run |
| Passes.ServeFlushes | tmtracker.c:187-217 | a descriptor reported for writing: its socket gets the front of its queue, as much as it takes; the rest stays queued, or nothing after an error; it stays watched if and only if the send is not finished; nothing else changes |
| Passes.ServeAside | tmtracker.c:106-219 | serving one descriptor sends nothing on any other connection that is there, leaves it in the table and watched as it was, and can only add to its queue |
| Passes.PassFlushes | tmtracker.c:93-220 | over one pass every descriptor reported for writing is flushed exactly once: its socket gets, beside what it had, as much as it takes of the queue at its turn, the rest stays queued, and it is watched afterwards if and only if the send is not finished |
| Passes.RunFlushes | tmtracker.c:93-220 | over every run, what the socket of a connection has got is what it had and what the flushes took from its queue, in order |
| Passes.ServeAccepts | tmtracker.c:108-129 | an IPv4 connection on a descriptor that is not in use is in the table, at the end, with the address it came from, nothing read or queued, and is watched for reading; the older contexts are as before; anything else changes nothing |
| Passes.ReadHangsUp | tmtracker.c:130-184 | a connection that is read from is gone, and not watched any longer, if and only if it came to the end of the file or to a message of length 0; else it has unread what is left over |
| Passes.GoesWhenFlushed | tmtracker.c:171-217 | a connection that ended goes at once if nothing is queued on it, and otherwise with the flush that sends the rest or fails; until then it keeps its queue; no other goes |
| Passes.RunCaller | tmtracker.c:93-220 | over every run, as long as a connection is watched it is in the table under the address it was accepted from |
| Passes.AcceptedStream | tmtracker.c:93-220 | from the step that accepts a connection, over every run: the messages handled from it are those of the whole stream that arrived on it, and each read handles its messages as coming from the accepted address |
| Scratch.SpareInMebibyte | tmtracker.c:88-88 | a scratch arena of one mebibyte with at most 650000 bytes taken has room for handling messages of up to 128 KiB |
| Scratch.SendEverywhere | tmcommon.c:246-253 | one message packed in the caller's scratch buffer is sent everywhere with the same bytes, and is still there afterwards |
| Scratch.RunJobs | tmtracker.c:242-257 | packing anew and sending, job after job, from a copy of the scratch arena: the contexts are as after all sends in order, with at most one more context per send; the caller's scratch bytes and position are unchanged; an abort needs a scratch arena too small for the largest message or a crowded contexts' arena |
| Handler.KnockSends | tmtracker.c:242-257 | what the handler packs and sends for a KNOCK is what the protocol says, in order |
| Handler.ByeSends | tmtracker.c:268-271 | and for a BYE |
| Handler.JobsHandle | tmtracker.c:227-274 | packing and sending the jobs that a message gives rise to leaves exactly the contexts of the tracker's reaction to it, with as many sends |
| Handler.HandleKnock | tmtracker.c:229-260 | a KNOCK in memory: its names, kept in scratch, are still there behind all packing and sending when the peer table copies them; contexts, watched descriptors and table are those of the reaction; scratch is as the caller had it |
| Handler.HandleBye | tmtracker.c:261-271 | a BYE in memory, likewise |
| Handler.HandleMsg | tmtracker.c:227-274 | the whole handler in memory has exactly the effect of the tracker's reaction; no context moves, and the array stays where it is if it has room for as many more as there are sends; an abort is one of the reaction, or needs a scratch arena too small for names and messages or a crowded contexts' arena |
| Handler.ScratchSuffices | tmtracker.c:88-88 | one mebibyte of scratch is never too small: for every message of at most 65535 bytes and every table, names and all messages that the handler packs and sends fit |
| Handler.OnlyCrowded | tmtracker.c:227-274 | so a handler that runs out of space does so in the contexts' arena |
| Reader.Deframe | tmtracker.c:143-169 | the receive loop in memory: each message is handled while it lies in the arena in which its handler adds contexts and regrows queues, and then leaves the read buffer; the effect is that of the value model |
| Reader.ReadReady | tmtracker.c:130-184 | reading, handling and hanging up, in memory, have exactly the effect of the value model; an abort is one of the messages', or needs a crowded contexts' arena |
| Reader.WriteReady | tmtracker.c:187-217 | and so have flushing, clearing after an error, and closing |
| Reader.Accept | tmtracker.c:108-129 | and accepting |
| Reader.RunFits | tmtracker.c:93-220 | what serving in memory asks of the state, lengths of 16 bits and names of 16 bytes, holds in every state of every run |
| Reader.Scan | tmtracker.c:106-219 | one pass of the select loop in memory, with its moving bound, has exactly the effect of serving all ready descriptors in increasing order; an abort is one of the messages', or needs a crowded contexts' arena |
| Client.ReactionToNews | tm.c:518-554 | packed news from the tracker's address has exactly the effect of the news |
| Client.NewsQueues | tm.c:535-553 | a peer that comes online is in the table, with its one callback queued; for one that goes offline one is queued if and only if it is in the table; handles are the peer's |
| Client.StrangersIgnored | tm.c:522-543 | whatever bytes come from an IP other than the tracker's: peers, rows and labels are as before, and so is the idle queue, but for one chat at most, for a CHATTEXT |
| Client.TextQueues | tm.c:557-582 | a CHATTEXT, from anybody: one chat is queued, for the sender's own handle, if and only if the sender is in the table, and nothing else changes |
| Client.OthersIgnored | tm.c:518-583 | a message of any other number, and a PEER_ONLINE that announces more than it has, change nothing |
| Client.FatalIs | tmcommon.c:94-151 | with a table of at most 512: the messages that abort the client are exactly a PEER_OFFLINE before there was ever a peer, and a PEER_ONLINE that can be unpacked for an address that is not in a full table, both from the tracker's IP |
| Client.RemoveRowAt | tm.c:717-762 | exactly the first row of the peer goes, the order of the others stays |
| Client.ReceiveKeeps | tm.c:535-552 | receiving news keeps every queued and shown handle valid and meaning the same address |
| Client.RunIdleKeeps | tm.c:666-762 | the lookup that a callback asserts succeeds, and running it keeps all handles valid |
| Client.Client.HandleMsg | tm.c:518-583 | table and idle queue are as the reaction says; PEER_ONLINE and PEER_OFFLINE count only from the tracker's IP; in arenas with room, aborts exactly for a PEER_OFFLINE before there was ever a peer and for a new peer in a full table |
| Client.Client.RunCallback | tm.c:666-762 | the first queued callback runs with exactly the effect of the value model |
| Client.Client.IdlePeerOnline | tm.c:666-716 | the peer is found and has exactly one row afterwards, labelled with its alias; the other rows are the same |
| Client.Client.IdlePeerOffline | tm.c:717-762 | the peer is found, loses its row and is turned off; the other rows are the same |
| Membership.ReceiveView | tm.c:522-554 | moving news from the inbox into table and idle queue does not change what the client will show and know |
| Membership.RunIdleView | tm.c:666-762 | running a callback does not change it either |
| Membership.ForBroadcast | tmcommon.c:246-253 | where no two active peers listen at the same place, a broadcast reaches every active peer once and nobody else |
| Membership.KnockFor | tmtracker.c:237-257 | who hears what of a knock: the active peers of the newcomer, the newcomer of all of them, nobody else anything |
| Membership.ReplayView | tmtracker.c:247-257 | a newcomer that works off the replay shows exactly the active peers under the tracker's names for them |
| Membership.RelayConfluence | tmtracker.c:244-257 | a client learns the same record, and queues the same, whether from the live broadcast with the full names or later from the tracker's cut record |
| Membership.ByeFor | tmtracker.c:261-271 | those who stay hear of a goodbye once, nobody else |
| Membership.NextInv | tmtracker.c:227-274 | every step of the system (start, stop, handling, receiving, callback) keeps the invariant of table, inboxes and idle queues |
| Membership.RunInv | tmtracker.c:229-273 | the invariant holds after every schedule |
| Membership.HandledRegisters | tmtracker.c:229-271 | a client is registered once its knock is handled, and is not once its goodbye is |
| Membership.MayJoin | tmtracker.c:229-260 | in every reachable state a client that is down, with nothing on its way, can start under any names that fit, and is registered under them, as they are cut, once its knock is handled |
| Membership.MayLeave | tmtracker.c:261-271 | and one that is registered can leave: it is not once its goodbye is handled |
| Membership.PeersShown | tm.c:666-762 | in every reachable state: idle queue, then inbox, worked off leave exactly the tracker's active peers without the client itself, each with the tracker's alias, host name and address |
| Membership.QuietMembership | tm.c:666-762 | with nothing pending the rows are exactly the active peers without the client itself, each labelled with the alias the tracker has for it |
| Membership.CanWorkOff | tm.c:666-762 | in every reachable state what is pending at a client can be worked off by that client alone, with nothing else changed |
| Membership.CanCatchUp | tm.c:666-762 | so from every reachable state a registered client can, by itself, come to show exactly the active peers without itself under the tracker's aliases |
| Membership.NoAssertFails | tm.c:670-672 | in every reachable state the next callback finds its peer, and a PEER_OFFLINE is for a peer in the table |
| Membership.TablesFit | tmcommon.c:131-151 | in every reachable state no table, of the tracker or of a client, has more entries than there are clients |
| Membership.HandlesStay | tm.c:535-552 | while a client runs, a handle that is queued or shown means the same address at every later step |
| Relay.PacketsOfNews | tmcommon.c:246-253 | what is sent to one destination is exactly the frames of the news for it, in order |
| Relay.HandedGrows | tmcommon.c:198-206 | a destination that has a connection is handed, on that connection, exactly what is sent to it |
| Relay.ReactIsReceive | tm.c:518-554 | handling the packed news, message after message, has the effect of receiving the news |
| Relay.Feed | tm.c:485-491 | a client that is fed the packed news has received it; in arenas with room, it aborts exactly for a PEER_OFFLINE before there was ever a peer and for a new peer in a full table |
| Relay.NewsArrive | tmtracker.c:139-169 | for a connection that was handed news, in any state, and any chunking: the client is as if it had received the first of the news, in order, and all of it exactly when nothing is on the way |
| Relay.RunHands | tmcommon.c:198-244 | over every run: what a connection was handed, from the message it was opened for, are the frames of the last of the news for its destination, in order |
| Relay.RunArrives | tmtracker.c:93-220 | so after every run a client that got any part of what the connection's socket took, in any pieces, is as if it had received consecutive news for it, up to the last exactly when nothing is on the way |
| Relay.RequestIsTaken | tmtracker.c:227-274 | what a packed request makes the tracker do is the step that the system of tracker and clients takes for it |
| Relay.RequestsArrive | tmtracker.c:130-169 | requests that arrive in any pieces, with anything else served in between, are handled whole and in order, and each is the step that the system takes for it |
| Split.StringSearch | clib.c:196-207 | the leftmost match of a non-empty string from the start position on, or -1 |
| Split.SearchIs | clib.c:196-207 | that leftmost match is the only result with its properties |
| Split.SearchMeans | clib.c:196-207 | what is found is a place of the string; wherever the string is from the start position on, something is found, and not behind that place |
| Split.StringSplit | clib.c:250-284 | the array made for the tokens counted in the first pass is exactly filled by the second; aborts exactly where array and tokens do not fit in the arena, and for 65535 one-character separators |
| Split.SpaceOfTokens | clib.c:264-281 | the copies of the tokens take the bytes of the string without the separators, and one more each |
| Split.TokensBound | clib.c:255-266 | there is at most one token more than characters, and that many only in a string of one-character separators |
| Split.JoinOfTokens | clib.c:250-284 | the tokens joined by the separator are the string |
| Split.TokensLeftmost | clib.c:250-284 | no token contains the separator, and each but the last runs up to the leftmost one |
| Split.TokensOfJoin | clib.c:250-284 | splitting undoes joining if and only if the tokens are of that kind |
| Tokenizer.TokenizeCommand | tm.c:226-269 | the tokens are the maximal runs left after deleting all characters that are neither alphanumeric nor space, each as far as it can be stored; aborts exactly where tokens and arrays do not fit in the arena, and for more than 32768 tokens |
| Tokenizer.Characters | tm.c:236-257 | the characters kept are the digits, the letters and the six spaces, by their codes |
| Tokenizer.CleanedSum | tm.c:232-266 | what is deleted of a command is deleted character by character |
| Tokenizer.WordsWhole | tm.c:253-264 | a part without spaces is one token, if it is not empty |
| Tokenizer.WordsAround | tm.c:257-260 | at a space the tokens are those in front of it, then those behind it |
| Tokenizer.CharsSpaceIs | clib.c:161-177 | a token of n characters, appended one by one, takes n(n+3)/2 bytes |
| Tokenizer.OneToken | tm.c:98-98 | in the client's shell scratch a command of one token fits if and only if it has at most 84 characters |
| Tokenizer.WordsAreTokens | tm.c:226-269 | tokens are not empty and have only letters and digits |
| Tokenizer.WordsOfJoin | tm.c:271-283 | tokens joined by spaces are split into the same tokens |
| Tokenizer.ArrayJoinStrings | tm.c:271-283 | joins exactly the elements of the slice, cut at the end of the array, as far as they can be stored; aborts exactly where all the strings on the way do not fit in the arena |
| Tokenizer.SliceIs | tm.c:274-278 | which elements are joined: from the first index to the last one or to the end of the array, none where that is empty |
| Tokenizer.JoinedFits | clib.c:161-171 | what is shorter than 65535 bytes is joined without loss |
| Tokenizer.Retokenized | tm.c:226-283 | tokenizing any slice of a command's tokens, joined, gives that slice |
| StrMap.SetInMap | clib.c:405-429 | setting a key in the pairs sets it in the map, and keys stay unique |
| StrMap.RemoveInMap | clib.c:437-448 | swapping the last pair into the gap removes exactly the key from the map |
| StrMap.Map.Set | clib.c:405-429 | the slots refine a map: exactly the key is set, also where the slots are doubled; aborts exactly where the key is new and there is no room for it and the doubled slots, or doubling overflows their 16-bit count |
| StrMap.Map.Get | clib.c:430-436 | the value of the map, or the null pointer |
| StrMap.Map.Remove | clib.c:437-448 | exactly the key is gone, although the scan goes on behind the swap |
| StrMap.Map.Clear | clib.c:401-404 | the map is empty, in the same slots |
| Arrays.Array.Append | clib.c:357-369 | the item is added at the end, growing by doubling; aborts exactly where there is no room for the doubled store or the 16-bit capacity overflows |
| Arrays.Array.New | clib.c:336-347 | an empty array, of 32 items where no capacity is given; aborts exactly where it does not fit |
| Arrays.Array.Replace | clib.c:379-384 | exactly the one item is replaced; an index out of range changes nothing |
| Arrays.Array.Remove | clib.c:370-378 | exactly the item goes, the order of the others stays, and the slot behind them is cleared |
| Arrays.Array.Item | clib.c:385-388 | the item at the index, or an abort exactly where the index is out of range |

## Left out

- Tracker.Tracker.HandleMsg: works on values and has no abort for a used-up arena of contexts or scratch; `Handler.HandleMsg` is the same in memory and says what such an abort needs.
- Handler.HandleMsg: an abort for lack of space is tied to a crowded arena one way only; a crowded arena does not have to abort.
- Reader.Scan: likewise; and a context whose array was moved under a handler is taken to be the moved one.
- Handler.KeepNames: a name that a short KNOCK does not bring takes one byte of scratch here and none in the program.
- Scratch.RunJobs: an abort is tied to crowded arenas one way only, because the exact condition of a list of sends depends on which queue has to grow when; that of each send is exact.
- Peers.PeerTable.CreatePeer: the peers are values; capacity and position of their arena are counted.
- StrMap.Map.Set: keys and values are Dafny values, not copies in the arena; their space is taken from it. So it is with the items of `Arrays.Array` and the strings of `Split` and `Tokenizer`.
- Tracker.UnpackKnock: a KNOCK with a string length behind its end, for which the program reads behind the message, is ignored; a variable that is not stored is 0.
- Tracker.OthersIgnored: so what it says of such a KNOCK is a choice of the model.
- Client.OthersIgnored: likewise for a PEER_ONLINE.
- Memory.Buffer.Shift: the overlapping `memcpy` is taken as the forward copy it is meant to be.
- Arrays.Array.Remove: the one item too many that is moved from behind a full store is left out; it is cleared again.
- Net.NetRecv: the pieces in which bytes arrive are not bounded by 1024.
- Liveness of watched queues: that select reports a descriptor which can be written. For queues that are not watched it is proved that nothing is sent.
- The client's `active` flag: an offline callback that runs late may turn off a peer that is back; the membership theorem is about the rows.
- Client.Client.HandleMsg: names, chat texts and the contexts' buffers take no arena space, so an abort for lack of it is left out.
- Relay.Feed: likewise.
- Relay.RunArrives: for news whose names fit in a message; for other news see `Tracker.NewsTooLong`.
- The client's CHATTEXT: of it only the queued callback is kept; the chat log and chat windows are left out.
- Sockets, name resolution, `select`, timeouts, threads and signals, `NetSend_wait_until_complete`; the client's loop around the receive loop, which is the same as the tracker's.
- GTK, argument parsing, address printing, timestamps, `hash16`, `printf` formatting, `StringTrim`, `find_peer_alias`: easy or foreign.
- `backup/`, `msg.h`, `t.c`, `t2.c`: superseded or experiments.
