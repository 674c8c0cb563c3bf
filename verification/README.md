# MambaNet daemons: a model and its proofs

The repository is a set of daemons and a panel application around the MambaNet protocol of an Axum
audio console. This project models the parts of it that compute something intricate and proves what
they are for. `dafny verify dfyconfig.toml` checks the whole project.

**The CAN gateway in serial mode** (`gateway/if_scan.c`). A sender queues messages in a ring of 8000
slots (`TransmitRing`). A thread takes the oldest, cuts it into eight-byte CAN frames with a four-bit
sequence number (`Frames`), and writes each as a block of thirteen bytes between 0xE0 and 0xE1
(`SerialPort`). The receiver keeps a byte ring, a decoder that finds its way back to the start of a
block (`Decoder`), and up to 1000 slots that put messages together per source (`AddressList`, over the
functions of `Reassembly`). `Transport` joins the two ends on pure functions, `Gateway` on the two
threads' loops. The main results: a message crosses the line unchanged, leaving the receiver ready for
the next, if and only if it has 1 to 127 bytes, an 0xFF at its end and nowhere before, and no 0xE0
(`Transport.ExactlyWellFormed`); whatever such messages are put in while others are sent arrive in
order, once each, tagged with their peers, hardware-parent blocks in between or not
(`Transport.EndToEnd`, `Gateway.Session`); how read() cuts the stream does not matter (`SerialPort.Port.Read`,
`Gateway.Receive`); what survives loss, duplication and reordering is stated in
`Reassembly.DeliveryTrace`, and when a source falls silent for good in `Reassembly.SilentForever`.

**Seven-bit packing and framing** (`qt_widgets/DNREngineThread.cpp`). Two in-place loops pack eight-bit
bytes into seven-bit ones and back; they undo each other, and both denote the same string of bits
(`SevenBit`). The framer's output is recoverable and is exactly what the transport carries
(`SerialMessage`).

**The address server** (`address/main.c`, `address/db.c`). Its handlers are atomic steps over an SQL
table of addresses and hardware IDs, whose two unique keys refuse a statement that would break them
(`AddressTable`, `AddressServer`); other programs may remove, re-address and re-identify rows in
between. In any run two non-zero replies carry the same address exactly when they answer the same ID,
and after a non-zero reply an ID is answered again only more than five seconds later. The keys refuse a
statement of the server exactly when it stores back a row whose address is 0; such a row is never
stamped, so its replies are not spaced at all. `AddressSteps` says of each handler which replies it sends
and which fields of which row it changes.

**The equaliser** (`qt_widgets/DNREQPanel.cpp`), over the real numbers: the zeros and poles of a
second-order filter (`Biquads`), the filter design with its branches (`Equaliser`), the curve that each
filter type must give at the points that define it (`FilterShapes`), and the response
curve as a running product of distances (`ResponseCurve`). `RealArithmetic` holds the order facts about
products and quotients that the proofs use.

**Three smaller mechanisms**: change notification with a cursor and re-entrant callbacks
(`ChangeNotify`, from `common/common.c`), the learner's request list with a window in flight
(`LearnerQueue`, from `learner/main.c`), and the fader's inverse table (`FaderTable`, from
`engine/db.c`).

Code that updates things in place is modelled by classes and methods with loops; each method is tied to
a function of the inputs or of the old state, and the promises are proved about those functions. Ghost
fields (`queue`, `table`, `spine`, `held`) give the value a structure stands for.

## What comes in from outside

Bytes arriving on the serial device, how many of them one read() returns, clock readings, the results of
sin, cos, tan, sinh and pow, the rows other programs commit, notifications, and what the MambaNet library
reports are parameters. A square root is any function `sqrt` with `sqrt(x) >= 0` and
`sqrt(x) * sqrt(x) == x` for `x >= 0`. Fields that the address server leaves uninitialised
are arbitrary parameters of the event. The database session runs in UTC: only then is the time of a
row, written with a time zone into a column without one (`sql/schema.sql:132`, `address/db.c:153-158`),
read back as it was.

## Model

| member | source | states |
|---|---|---|
| Transport.ExactlyWellFormed | gateway/if_scan.c:295-515 | from any decoder state, the blocks sent for a message are received as exactly that message, with the slot ready again, if and only if the message has 1 to 127 bytes, ends in its only 0xFF and contains no 0xE0; lengths divisible by 8 included, where the extra all-zero frame is dropped |
| Transport.EndToEnd | gateway/if_scan.c:295-515 | any sequence of well-formed messages to any peers, with hardware-parent blocks anywhere between, is delivered unchanged, once each, in order, tagged with the peer, as long as there are no more sources than slots |
| Transport.Intact | gateway/if_scan.c:333-351 | a message of up to 128 bytes with its only 0xFF at the end and without 0xE0 is delivered whole, and leaves the slot ready for the next one exactly unless it has 128 bytes |
| Transport.Damaged | gateway/if_scan.c:333-351 | of a message of up to 128 bytes with its only 0xFF at the end, but an 0xE0 in some fragment, nothing comes out: the first such fragment is lost on the line and the receiver waits for it, except that the seventeenth frame of a 128-byte message, numbered 0, stands in for a lost first one |
| Transport.ParentExactlyClean | gateway/if_scan.c:369-382 | an announced hardware parent is read back by the other side if and only if none of its bytes is 0xE0 |
| Transport.ReceiveConcat | gateway/if_scan.c:442-455 | receiving a stream in two parts is receiving it at once |
| Transport.HeardPieces | gateway/if_scan.c:387-396 | the frames of a message that get across, read as scan_parse reads them, are its clean fragments, numbered modulo 16, from the peer it was sent to |
| Gateway.Send | gateway/if_scan.c:356-411 | the sender's loop puts the front of the queue on the line whole and in order, parent blocks only between messages, and empties the queue given enough rounds |
| Gateway.Receive | gateway/if_scan.c:442-455 | for every way read() may cut the stream: frames decoded so far plus frames still to come are constant, and the messages handed over are those of the frames decoded; as many reads that give something as there are bytes use the stream up, and then they are those of a one-pass receiver |
| Gateway.SentIsReceived | gateway/if_scan.c:356-515 | whatever queue of well-formed messages the sending loop has put on the line, the receiving loop's deliveries are exactly that queue, tagged with its peers |
| Gateway.InOrder | gateway/if_scan.c:356-439 | for any order of messages put in and rounds of the sending thread, what was waiting and what was taken in is, in order, what was sent and what still waits |
| Gateway.Serve | gateway/if_scan.c:356-439 | scan_transmit and rounds of scan_send in any order leave the queue and put the messages on the line as that bounded queue says, with parent blocks only between messages |
| Gateway.Session | gateway/if_scan.c:356-515 | from one end to the other: after any such order of events, a fresh receiver that reads the line to its end has handed over exactly the messages sent, tagged with their peers, which are the first of those taken in |
| TransmitRing.Ring.constructor | gateway/if_scan.c:68-114 | the ring starts empty at slot 0 |
| TransmitRing.Ring.Transmit | gateway/if_scan.c:414-439 | the ring is a bounded FIFO: the message is appended at the end unless all 8000 slots are taken, which is exactly when the call fails; occupied slots stay one cyclic block from txstart on |
| TransmitRing.Ring.Turn | gateway/if_scan.c:366-408 | one round sends a parent block when the clock has moved on, then the oldest message and nothing else, and removes it |
| TransmitRing.Ring.SendMessage | gateway/if_scan.c:387-396 | the fragment loop, with one frame variable whose id is patched in place, writes the blocks of all fragments in order |
| TransmitRing.Ring.NextFragment | gateway/if_scan.c:391-395 | fragment i is bytes 8i to 8i+7 of the message padded with zeros; its id still holds what earlier indices above 15 left behind |
| Frames.SerialRoundTrip | gateway/if_scan.c:490-539 | a fragment that crosses the line comes out addressed to node 1, from the peer it was sent to, with its own number; the seventeenth comes out numbered 0 |
| Frames.Addressed | gateway/if_scan.c:295-311 | a frame sent to a peer is taken by scan_parse on the bus exactly if the peer is everyone or node 1, and comes from node 1 |
| Frames.ParentRoundTrip | gateway/if_scan.c:211-264 | the hardware parent read from an announced block is the one announced, and scan_parse ignores that block |
| Frames.NotAParent | gateway/if_scan.c:211-264 | no block of a message is mistaken for a hardware parent |
| Decoder.RunConcat | gateway/if_scan.c:475-507 | decoding is a fold: the state and the frames of a concatenation are those of the parts in turn |
| Decoder.OneBlock | gateway/if_scan.c:475-507 | from any decoder state a block yields its frame if no data byte is 0xE0, and nothing otherwise |
| Decoder.ManyBlocks | gateway/if_scan.c:475-507 | from any decoder state a stream of blocks yields the frames of its clean blocks, in order |
| Decoder.Resynchronise | gateway/if_scan.c:475-507 | a receiver that starts at any byte offset of a stream of blocks reports exactly the clean blocks that lie wholly in the rest, and no other frame |
| Decoder.FramesExactly | gateway/if_scan.c:475-507 | of any bytes whatever: byte k completes a frame exactly if it is a STOP with twelve bytes from the last START up to it, or from the beginning if there was none; the frame is the one read from those thirteen bytes |
| SerialPort.Port.Read | gateway/if_scan.c:459-515 | whatever read() returns and wherever the ring stands, the frames still to come lose exactly the frame returned; bytes leave in the order they came; the device is asked only when the ring is empty; as long as it gives something, every call takes something off the stream |
| SerialPort.Port.Refill | gateway/if_scan.c:467-472 | the bytes taken from the device are appended to the ring behind what is there, wrapping at its end |
| SerialPort.Port.EmptyExactly | gateway/if_scan.c:466-475 | the ring is empty exactly when its two indices are equal: a filled ring is never taken for an empty one |
| SerialPort.Port.Take | gateway/if_scan.c:476-478 | one byte leaves the ring at the front |
| SerialPort.Port.Decode | gateway/if_scan.c:480-505 | the branches on one byte, on the message buffer in place, do one step of the decoder (Decoder.FramesExactly says by positions what such steps report), and build the CAN id from the three header bytes |
| SerialPort.Port.Write | gateway/if_scan.c:518-539 | the thirteen bytes written are the block of the frame |
| SerialPort.Port.WriteParent | gateway/if_scan.c:541-562 | the same with the control bit set |
| Reassembly.SlotBounds | gateway/if_scan.c:333-351 | after any events of a source its expected number is within 0 to 16, and its buffer holds that many whole frames without an end byte |
| Reassembly.DeliveryTrace | gateway/if_scan.c:333-351 | under any loss, duplication and reordering a delivered message is the concatenation of the accepted frames 0 to k of one source, in order of arrival, with nothing delivered and the slot not freed from the first of them on, cut after its only end byte, and at most 128 bytes |
| Reassembly.DeliveredSomewhere | gateway/if_scan.c:343-351 | every message a source has delivered was completed by one of its events, so that the row above speaks of all of them |
| Reassembly.SilentForever | gateway/if_scan.c:333-346 | there is no reset on a sequence mismatch: a source delivers nothing ever again, until its slot is freed, exactly when it got sixteen frames in a row without an end byte |
| Reassembly.Independence | gateway/if_scan.c:287-353 | under any interleaving of frames and slot releases, what a source has delivered and what its slot holds is what its own events alone give, as long as none of its frames found the table full |
| Reassembly.TableShaped | gateway/if_scan.c:295-353 | whatever arrives, every message handed over has 1 to 128 bytes and one end byte, at its end |
| Reassembly.OneSource | gateway/if_scan.c:313-351 | frames of one source change only that source's slot |
| AddressList.Slot.Accept | gateway/if_scan.c:333-351 | the sequence check, copy and search for the end byte on the slot's buffer do one step of the reassembly function |
| AddressList.Slots.Find | gateway/if_scan.c:313-321 | the loop finds the slot of the source if it has one, else a free slot, or that all are taken |
| AddressList.Slots.Parse | gateway/if_scan.c:295-353 | the slot array refines a map from source to state: no two slots share a source, lnkindex is the slot's index, a frame for someone else changes nothing, and a new source is refused exactly when all slots are taken |
| AddressList.Slots.Free | gateway/if_scan.c:287-292 | freeing a slot removes its source from the map and nothing else |
| SevenBit.RoundTrip | qt_widgets/DNREngineThread.cpp:43-98 | decoding the encoding of any byte string gives it back |
| SevenBit.SameBits | qt_widgets/DNREngineThread.cpp:43-73 | the encoding has 8n/7 bytes rounded up, all below 0x80, and denotes the same little-endian string of bits followed by zeros |
| SevenBit.FitsCounter | qt_widgets/DNREngineThread.cpp:43-73 | the byte counter carries the length of the encoding faithfully exactly up to 223 bytes |
| SevenBit.Encode8to7bits | qt_widgets/DNREngineThread.cpp:43-73 | the loop with its masks and ORs writes the encoding and nothing outside its room, and returns the length modulo 256 |
| SevenBit.EncodeByte | qt_widgets/DNREngineThread.cpp:52-66 | one byte goes into at most three places, the first of them ORed into |
| SevenBit.Decode7to8bits | qt_widgets/DNREngineThread.cpp:76-98 | the loop writes the decoding and returns its length |
| SevenBit.DecodeByte | qt_widgets/DNREngineThread.cpp:86-95 | one septet completes the byte begun and begins the next, except at every eighth |
| SerialMessage.SendSerialMessage | qt_widgets/DNREngineThread.cpp:100-149 | for up to 99 bytes of data every access to the 127-byte buffer is in bounds and the bytes written are header, packed data and end byte |
| SerialMessage.Recoverable | qt_widgets/DNREngineThread.cpp:113-149 | 29 bits of address, 14 bits of type and the data can be read back, the address of the sender reads back as 0, and the length byte is the length |
| SerialMessage.FitForTransport | qt_widgets/DNREngineThread.cpp:113-149 | only the first byte, 0x80 or 0x81, and the last, 0xFF, have the top bit set, so the message is one the serial transport carries |
| AddressTable.UpdateKeepsKeys | address/db.c:119-164 | storing a fetched row back under its own address and ID changes no address and no ID in the table |
| AddressTable.InsertKeeps | address/db.c:119-164 | an INSERT that the keys let through keeps all apart and adds just that pair |
| AddressTable.RenameKeeps | sql/triggers.sql:14-27 | another program's change of a row's unique ID keeps addresses and IDs apart and touches no row but that one and the one that gives way |
| AddressTable.GetExactly | address/db.c:49-98 | a fetch by address gives a node exactly if it is the row of that address with its last-seen time cut off at the present |
| AddressTable.ByIdExactly | address/db.c:49-116 | the same for a fetch by ID |
| AddressTable.SetThenGet | address/db.c:85-164 | a fetched row stored back, or a row inserted, is what both fetches then give, without its VALID bit; every other address and ID gives what it gave before |
| AddressServer.FirstFree | address/db.c:180-186 | the search from 1 ends, with the least address no row has, at most the number of rows plus 1 |
| AddressServer.Pigeonhole | address/db.c:180-186 | n addresses in use from 1 on need n rows |
| AddressServer.InfoKeeps | address/main.c:242-307 | an address information message keeps addresses and IDs apart and every row in place, and a non-zero address in a reply is that of the row with that ID; AddressSteps.KnownAnswer and UnknownAnswer say which replies there are |
| AddressServer.OnlineKeeps | address/main.c:66-144 | a node coming online keeps the table's addresses and IDs apart and every row in place |
| AddressServer.StepKeeps | address/main.c:66-333 | every step keeps addresses and IDs apart, keeps every row whose address nobody takes away, and answers an ID with no address but its row's |
| AddressServer.RefusedExactly | address/db.c:151-163 | the keys of the table refuse a statement of the server exactly when it stores back a row whose address is 0, which is taken for an INSERT; the table then stays as it was |
| AddressServer.ZeroAddressNotLimited | address/main.c:270-283 | any number of requests of an ID whose row has the address 0 leave the table unchanged, and each is judged by the time first stored: once that is more than 5 seconds past, all are answered, with the address 0 |
| AddressServer.RemovalReissues | address/db.c:189-202 | after a row is removed its node, if online, is sent the address 0, and the next request of its ID is answered at once with the least free address, which is stored |
| AddressServer.AlwaysGood | address/main.c:66-333 | in every reachable state no two rows share an address and no two share an ID |
| AddressServer.OneAddressPerId | address/main.c:66-333 | any two non-zero replies of a run carry the same address exactly when they answer the same ID, unless the first one's address, or its ID, was taken away in between |
| AddressServer.AnswersApart | address/main.c:270-302 | with a clock that does not go back, after a non-zero answer an ID's requests are answered again only more than 5 seconds later, as long as its row is not removed and keeps its ID |
| AddressServer.StepSeen | address/db.c:72-81 | unless its row is removed or replaced, no step moves the time an ID was last seen back behind the clock |
| AddressServer.Server.NewAddress | address/db.c:180-186 | the loop returns the least unused address from 1 |
| AddressServer.Server.SetAddress | address/main.c:45-63 | the reply broadcast has its VALID bit set exactly when the address is not 0 |
| AddressServer.Server.ReceiveMessage | address/main.c:242-307 | the handler changes the table and sends replies as the step function says, whose results AddressSteps.KnownAnswer, UnknownAnswer and SeenStamps give |
| AddressServer.Server.NodeOnline | address/main.c:66-123 | the same, for a node found online; AddressSteps.OnlineReplies, OnlineAdds and OnlineWelcomes give the results |
| AddressServer.Server.AddressTableChange | address/main.c:126-155 | the same, for nodes coming online and going offline (AddressSteps.OfflineMarks) |
| AddressServer.Server.StoreResponse | address/main.c:158-333 | the same, for a hardware parent, firmware revision or name response and for a timeout of a name setting (AddressSteps.ResponseStores) |
| AddressServer.Server.EventSetAddress | address/db.c:221-234 | a changed address is announced with the row's ID, after a 0 to the node at the old one |
| AddressSteps.KnownAnswer | address/main.c:270-285 | a request of an ID that has a row is answered, exactly if the row was last seen more than 5 seconds ago, by just that row's address, VALID unless it is 0; the row then has one request more and, if answered, the time stored; no other row changes |
| AddressSteps.UnknownAnswer | address/main.c:286-302 | a request of an ID without a row is answered with the least free address, and a row with that address is appended, of which every field is given |
| AddressSteps.SeenStamps | address/main.c:250-266 | a message of a node with a valid address stamps the row there and changes and answers nothing else; one without a real ID does nothing |
| AddressSteps.OnlineReplies | address/main.c:66-122 | a node found online has its valid bit reset exactly if some row has its address or its ID but not both, or the row that has both was cut off differently by the two clock readings; the table then stays, and there is no other reply |
| AddressSteps.OnlineAdds | address/main.c:88-95 | a node of unknown address and ID gets a row, of which every field is given |
| AddressSteps.OnlineWelcomes | address/main.c:101-115 | a node in its own row makes the row active, with the node's services and engine and no name to be set; the rest of it and all other rows stay, and nothing is written if nothing would change or the address is 0 |
| AddressSteps.OfflineMarks | address/main.c:145-151 | a node gone offline has its row marked inactive if it was active, and nothing else changes |
| AddressSteps.ResponseStores | address/main.c:158-335 | which field of the row each response or timeout changes, and that nothing else does |
| AddressSteps.MoveAnnounced | address/db.c:221-234 | the replies to a change of address: 0 to the node at the old one if it is online, then the new one with the row's ID; none for the server's own change |
| AddressSteps.NoRowNoStep | address/db.c:49-83 | where no row has the address, these handlers neither change nor send anything |
| AddressSteps.MovedExactly | sql/schema.sql:121-138 | another program's change of address moves exactly that row, unless some row has the new address |
| AddressSteps.RenamedExactly | sql/triggers.sql:14-27 | a row gets another unique ID exactly if every row that has it is of the same known firmware revision; those give way, and no other row changes |
| Biquads.PositionsAreRootPair | qt_widgets/DNREQPanel.cpp:1743-1806 | the two positions, from either branch, have the sum and the product of the roots and are two reals or a conjugate pair |
| Biquads.Factors | qt_widgets/DNREQPanel.cpp:1743-1806 | at every complex point the quadratic is its leading coefficient times the differences to the two positions |
| Biquads.PositionsExactlyRoots | qt_widgets/DNREQPanel.cpp:1743-1806 | a complex number is a root of the quadratic exactly when it is one of the two positions |
| Biquads.InsideExactlyStable | qt_widgets/DNREQPanel.cpp:1743-1772 | both positions lie strictly inside the unit circle exactly when the coefficients satisfy the stability condition |
| Equaliser.TermsValid | qt_widgets/DNREQPanel.cpp:1958-2102 | every product, quotient and root that a branch divides by or takes is positive, for all valid parameters |
| Equaliser.FormUsable | qt_widgets/DNREQPanel.cpp:1958-2102 | every formula has a stable denominator and a positive leading numerator coefficient |
| Equaliser.PolesInside | qt_widgets/DNREQPanel.cpp:1808-2115 | for every filter type, gain and valid parameters, the positions CalculatePolePosition finds are roots of the denominator strictly inside the unit circle; what curve each type gives is stated by FilterShapes |
| Equaliser.CutUndoesBoost | qt_widgets/DNREQPanel.cpp:2025-2102 | the boost and cut forms with the same quantities have transfer functions whose product is 1 at every point |
| Equaliser.HighShelfIsCut | qt_widgets/DNREQPanel.cpp:2090-2102 | the high shelf's cut branch, written with its denominator divided by A, is the same cut form |
| Equaliser.OppositeGain | qt_widgets/DNREQPanel.cpp:2025-2102 | for peaking filter, low shelf and high shelf, the filter at gain -G is the exact reciprocal of the one at +G (which of the two raises is stated by FilterShapes.PeakShape and ShelfShape) |
| Equaliser.IdentityExactlyAtUnity | qt_widgets/DNREQPanel.cpp:2025-2102 | those three filters change nothing exactly when the amplitude is 1, that is, at 0 dB |
| FilterShapes.LowPassShape | qt_widgets/DNREQPanel.cpp:1967-1977 | the low pass has response 1 at frequency 0, 0 at half the sampling rate, and half the power at its corner, where K = tan(Omega/2) |
| FilterShapes.HighPassShape | qt_widgets/DNREQPanel.cpp:1978-1988 | the high pass has response 0 at frequency 0, 1 at half the sampling rate, and half the power at its corner |
| FilterShapes.BandPassShape | qt_widgets/DNREQPanel.cpp:1989-1999 | the band pass has response 0 at both ends, 1 at its centre, and half the power where the cosine is Alpha times the sine away from it |
| FilterShapes.PeakShape | qt_widgets/DNREQPanel.cpp:2014-2050 | PEAKINGEQ, and NOTCH unless negative: response 1 at both ends; at the centre A to raise and 1/A to cut; half of that in decibels at the edges of the band that Q gives |
| FilterShapes.NotchShape | qt_widgets/DNREQPanel.cpp:2000-2013 | a negative NOTCH: response 1 at both ends, 1/A at the centre, and half of that in decibels at the edges of the band that Alpha gives |
| FilterShapes.ShelfShape | qt_widgets/DNREQPanel.cpp:2052-2102 | the shelves: A (or 1/A) at their end and 1 at the other, half of it in decibels midway, and at the centre a power set by the slope |
| FilterShapes.OffShape | qt_widgets/DNREQPanel.cpp:1808-1832 | switched off, or of type OFF, a filter changes nothing |
| FilterShapes.NoPole | qt_widgets/DNREQPanel.cpp:1958-2102 | no filter has a pole on the unit circle, so that these responses are finite |
| FilterShapes.AtOnCircle | qt_widgets/DNREQPanel.cpp:1958-2102 | the bilinear transform of an analogue polynomial on the unit circle, as which FilterShapes.FormTransformed shows every numerator and denominator |
| FilterShapes.FormTransformed | qt_widgets/DNREQPanel.cpp:1958-2102 | every formula is the bilinear transform of a fraction of two analogue polynomials, over a common number |
| ResponseCurve.TimesBand | qt_widgets/DNREQPanel.cpp:1565-1582 | one band multiplies the squared length by the squared magnitude of B(z) and divides it by that of A(z) |
| ResponseCurve.PlacedMeasures | qt_widgets/DNREQPanel.cpp:1565-1582 | the distances from a point to a filter's zeros and poles, with its gain factor, make up the magnitudes of numerator and denominator there |
| ResponseCurve.CalculateLength | qt_widgets/DNREQPanel.cpp:1563-1677 | at every point of the unit circle the length squares to the product, over all bands, of the squared magnitude of B(z) over that of A(z), and no division is by zero |
| ResponseCurve.SilentExactlyAtZeros | qt_widgets/DNREQPanel.cpp:1679-1682 | the length is zero, where the code draws -90 dB, exactly where some band's numerator is zero |
| ResponseCurve.InversePairIsFlat | qt_widgets/DNREQPanel.cpp:1563-1677 | two bands that are each other's inverse give the length 1 |
| ChangeNotify.NewerIsLater | common/common.c:327-329 | of rows in order the query finds the last part: a suffix, with every row before it at or below the cursor and every row in it above |
| ChangeNotify.Notifier.SqlExec | common/common.c:260-274 | a query and the notifications it leads to keep every row at or below the cursor handled, and the query for new rows returns the suffix of the visible rows that is later than the cursor |
| ChangeNotify.Notifier.ProcessNotifies | common/common.c:310-354 | whatever nesting the callbacks cause, no row at or below the cursor is ever missed, even when an outer call moves the cursor back; the visible rows later than the cursor, a suffix, are dispatched oldest first, once each and nothing else unless there are nested calls; if there are any, the cursor ends at the newest visible row, so that no visible row is later |
| ChangeNotify.Notifier.DispatchAll | common/common.c:327-340 | the loop dispatches all rows found, in order, whatever the callbacks do in between |
| LearnerQueue.Queue.Add | learner/main.c:91-102 | a request goes to the end of the list, not in flight |
| LearnerQueue.Queue.Process | learner/main.c:105-132 | the requests in flight stay a prefix of at most 5; those newly sent are the next ones in order, so that requests go out first in, first out |
| LearnerQueue.Queue.Remove | learner/main.c:135-158 | the bounded search succeeds if and only if a matching request is in flight anywhere in the list, and takes out the first such one and nothing else |
| LearnerQueue.Queue.Offline | learner/main.c:204-221 | when a node goes offline exactly its requests in flight are dropped; all others, its waiting ones included, stay in order |
| LearnerQueue.WithoutFront | learner/main.c:204-221 | after that loop what is still in flight is again a prefix, and none of it is of the departed node |
| FaderTable.FillPosition2dB | engine/db.c:1876-1887 | the nested loops with the carried level store for each position the level of the last entry that holds it, or what the position before got |
| FaderTable.AdjointExactlyOrdered | engine/db.c:1876-1887 | the computed table is the upper adjoint of the given one if and only if that one starts at 0 and no entry below 1024 is less than an earlier one |
| FaderTable.LevelsOfPositions | engine/db.c:1876-1887 | for such a table the levels never decrease, and every position it uses leads to a level that leads back |
| FaderTable.IndexOfLevel | engine/db.c:1869-1883 | the levels stored are those that the rounding on reading the table turns back into their own indices, from -140 dB at index 0 |

## Left out

- CAN socket mode, opening and configuring devices, threads, mutexes, sleeps and transmit delays; a locked handler is one atomic step.
- The wait for a hardware parent with its timeout in scan_hwparent; only the recognition of the frame is modelled.
- mbn.h is not part of this model: MBN_MAX_MESSAGE_SIZE is taken as 128, the least value for which the receive buffer is large enough.
- AddressList.Slot.Accept: the receive buffer is part of the record and is modelled as a sequence value in a field, not as an array of its own; aliasing of that buffer after delivery is not captured.
- AddressList.Slots.Parse: a frame with 16 in its four-bit number cannot occur, so the source's test for more than 15 has no counterpart.
- SerialMessage.SendSerialMessage: for more than 99 bytes of data the source goes on to write uninitialised memory; the model returns nothing there.
- AddressServer.Server.SetNode: the SQL table is a sequence of rows; statements that fail for other reasons than the two unique keys and the limits of SQL integer types are not modelled, nor are the triggers, except for what they do to a change of ID. One of them sets the flag setname again after every change of a name.
- AddressServer.Server.StoreResponse: the trimming of white space in a name is not modelled; the name stored is a parameter. The requests for name, hardware parent and firmware that the server sends along are not logged.
- AddressServer.Server: db_event_setengine sends no address reply; db_event_setname and db_event_refresh only clear flags of a row, and for a row that is gone the former stores an uninitialised record.
- ChangeNotify.Notifier.ProcessNotifies: rows become visible in increasing order of time, and sql_setlastnotify is not called; the deletion of old rows from recent_changes is not modelled.
- LearnerQueue.Queue.Process: the node's valid flag may drop during a pass but not come up during one; if it came up after a request had been passed over, the requests in flight would not be a prefix.
- The learner's node table, object scanning and database writes.
- Equaliser.Design: floating-point rounding and the design formulas that are switched off by a constant; bandwidth and frequency enter through the parameters K, Q, Cs and Alpha.
- ResponseCurve.CalculateLength: the source repeats the body for six bands, the model loops over any number; the frequency axis, logarithm and drawing coordinates are left out.
- FaderTable.FillPosition2dB: loading the table from the database, with its rounding to an index, is not modelled; levels are real numbers.
- The low-cut curve, which repeats the response computation for one filter.
- gateway/gateway.c, the rest of engine/, the backup file, widgets, meters and browser code: option parsing, user interface and column-by-column loading, which would only add easy members.
