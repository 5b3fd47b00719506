# Verified model of nasdaq_protocols

This project models the protocol core of `nasdaq_protocols` in Dafny and proves properties of it:

* the FIX tag=value codec with nested repeating groups, the outgoing frame builder, the stream reader and the
  numbering sender (`Fix*.dfy`);
* the byte-stream reader, the message queue, and the session that joins them, with its drain and close
  protocols, over every interleaving of data, reader turns, dispatcher turns, drains and closes (`Framing`,
  `StreamReader`, `MessageQueue`, `SessionDrain`, `SessionEnds`, `DrainEnds`, `DrainDiscard`, `AsyncSession`,
  `CloseProtocol`);
* the SoupBinTCP packets, their delivery, the client's login and its sequence counter, and the application that
  decodes them onto a queue of its own (`SoupCodec`, `SoupWire`, `SoupDelivery`, `SoupLogin`,
  `SoupApplication`);
* the binary record codec and its message registry (`BinaryInt`, `RecordCodec`, `RecordRoundTrip`,
  `RecordDefaults`, `RecordWire`, `RecordReader`, `RecordMessage`);
* the FIX specification parser that inlines components (`FixSpecification`, `FixSpecParser`);
* the heartbeat monitor as a timed automaton (`Heartbeat`).

Code that updates objects step by step is modelled by classes and loops (`Reader`, `Queue`, `AsyncSession`,
`Sender`, `Definitions`, `HeartbeatMonitor`, `Session`, `Registry`, the `...FromBytes` methods), each proved
against a function or an invariant; the theorems are lemmas about those functions. `AsyncSession` holds a `Reader`
and a `Queue` and goes, event by event, through the states of the machine the session theorems speak of. A `str` is the
sequence of its code points. Exceptions are results (`Error`, `None`, `Refused`, `Raised`, `Broken`, ...).

The `...Wire`, `FixText` and `RecordDefaults` modules state bytes, tags and values literally, without the codecs' own
functions, so that the two directions of a codec cannot drift together.

Every lemma switches automatic induction off, so its proof is the body it shows.

A reader of either protocol is a function from the unread bytes to "wait", "broken" or "one frame". All
theorems about streams are proved once, for every such function that is *incremental* (a frame has a positive
size, and an answer given does not change when more bytes arrive). The SOUP reader is incremental for arbitrary
bytes. The FIX reader is incremental up to the first announcement of a message length that is not positive; frames
made by a session never announce one, so its delivery theorem is about the reader as it is.

## Where the code does less than it promises

Each point is a theorem in the table: the exact condition, and where it helps a concrete input.

* FIX groups have no end marker. A message comes back exactly when it is not empty, no string holds an SOH, no
  repeating group is empty, and each further group of a container starts, in definition order, with a tag the
  group before it also carries (`FixMessage.RoundTrip`). Otherwise two groups are read as one
  (`FixNormal.MergedGroups`). Carrying the first-defined entry in every group is enough
  (`FixNormal.FirstEntrySeparates`).
* A drain given its chance gets past exactly when the buffered bytes hold no logout and no malformed frame and
  every entry, queued or still to be read, is taken by a dispatcher or by reads (`DrainEnds.DrainEndsExactly`). A
  closing drain of a client that has received one packet and has not started dispatching never ends, and its close
  handler never runs (`SoupDelivery.UndispatchedDrainHangs`).
* The FIX reader cuts a message off at a signed length. What it cuts off stays the same when more bytes arrive
  exactly when that length is not negative (`FixFrame.CutStands`). With BodyLength -30 in an otherwise ordinary
  heartbeat it raises, or yields the heartbeat and moves its read position to -13, depending on the bytes behind it
  (`FixNegative.NegativeLength`).
* `close(drain=True)` enters its drain exactly when no drain is in progress. Inside a drain of the application it
  raises with the session marked closed: the queue is not stopped, the close handler never runs, and no later close
  does anything (`DrainEnds.ClosingDrainEntered`, `DrainEnds.HalfClosedStays`). A connection lost while the
  application drains leads there (`DrainEnds.ConnectionLostWhileDraining`).
* After `stop` the remaining entries of a queue come out in order, in every interleaving, exactly when no dispatcher
  that the queue lost track of is left, or nothing remains (`MessageQueue.AfterStop`). The queue loses track of its
  dispatcher when the dispatcher's own handler stops it, pauses it or leaves a drain, and when a pause is left inside
  which dispatching was started (`MessageQueue.OrphansExactly`); runs of both kinds are
  `MessageQueue.StoppedFromHandler` and `MessageQueue.StartedInsidePause`.
* So a plain close loses exactly what is queued or unread only if the dispatcher's own handler did not make it and no
  dispatcher was forgotten before; otherwise queued messages are handed over after the close
  (`DrainEnds.PlainCloseLoses`).
* A blocking `get` that waits across a drain is answered by nothing but `stop`, with the end of the queue, whatever
  entries there are (`MessageQueue.StaleForGood`, `MessageQueue.WaitingAcrossDrain`).
* A FIX message with a tag unknown to its class is accepted, without anything from that tag on: what would have come
  after it, the trailer included, is left over and dropped (`FixLeftover.LeftOver`, `FixLeftover.StrayTag`).
* An exception of the reader, as for an unknown packet type, ends it and leaves the session open
  (`SessionEnds.OtherTurnsKeepOpen`, `SoupWire.OneBareFrame`, `FixWire.UnknownType`).
* A SOUP payload comes back exactly when it has at most 32766 bytes; the reader accepts longer frames, unpacks a
  negative length and drops the payload (`SoupCodec.PayloadKept`).
* A record's empty character claims a byte it does not write, and a fixed-length string that is too long or has
  outer blanks is not restored (`RecordRoundTrip.RoundTrip`, `RecordRoundTrip.EmptyCharacter`).
* A message class registered with direction `incoming` cannot be decoded: an id read from the wire always has
  the default direction (`RecordMessage.RoundTrip`).
* An absent body of a message is replaced by a blank record, and the message encodes as before exactly when its
  class nests no records (`RecordMessage.AbsentBody`).
* After login the client's sequence counter names the last packet exactly when reader turns took no sequenced packet
  between the reply and the assignment (`SoupLogin.CounterInStep`); a run in which it lags is
  `SoupLogin.LaggingRun`.

## Model

| member | source | states |
|---|---|---|
| FixCodec.ParseField | src/nasdaq_protocols/fix/core.py:79-91 | a parsed field uses at least one byte and never more than there are |
| FixCodec.ParseItems | src/nasdaq_protocols/fix/core.py:194-214 | parsing ends on every byte string, never uses more bytes than given, and keeps the slots read before |
| FixCodec.ParseEntry | src/nasdaq_protocols/fix/core.py:332-351 | a field or group container uses between one byte and all bytes |
| FixCodec.ParseGroups | src/nasdaq_protocols/fix/core.py:338-349 | a container yields exactly the declared number of groups, or fails |
| FixClassTable.ReadItems | src/nasdaq_protocols/fix/core.py:194-214 | the same for segment classes whose groups may contain themselves: parsing ends on every byte string |
| FixClassTable.ReadEntry | src/nasdaq_protocols/fix/core.py:332-351 | a field or container of such a class uses between one byte and all bytes |
| FixClassTable.ReadGroups | src/nasdaq_protocols/fix/core.py:332-351 | exactly the declared number of groups or a failure, for classes that refer to each other and to themselves |
| FixClassTable.ItemsAlike | src/nasdaq_protocols/fix/core.py:194-214 | parsing by classes that spell out a tree schema is parsing by that schema |
| FixClassTable.GroupsAlike | src/nasdaq_protocols/fix/core.py:332-351 | the same for a container's groups, so the tree schemas are an instance |
| FixClassTable.SelfContainingIsNoTree | src/nasdaq_protocols/fix/core.py:304-309 | a class with a container of its own groups is spelled out by no tree schema |
| FixClassTable.NestedInItself | src/nasdaq_protocols/fix/core.py:332-351 | a group of a self-containing class within a group of that class is read completely |
| FixParser.SegmentFromBytes | src/nasdaq_protocols/fix/core.py:194-214 | the loop over a segment of any class, whose end is a tag seen before or a foreign tag, computes the recursive parse, classes containing themselves included |
| FixParser.ContainerFromBytes | src/nasdaq_protocols/fix/core.py:332-351 | the loop over the groups of any class, ending at the count or at the end of input, computes the recursive parse |
| FixParser.MessageFromBytes | src/nasdaq_protocols/fix/core.py:472-488 | header, body and trailer are parsed one after the other, each from where the one before ended, as the schemas their classes spell out say |
| FixRoundTrip.ItemsThrough | src/nasdaq_protocols/fix/core.py:187-214 | clean slots, printed and ended by SOH, are read back in normal form and parsing goes on with what follows |
| FixRoundTrip.EntryThrough | src/nasdaq_protocols/fix/core.py:322-351 | a clean field or group container is read back exactly, whatever readable foreign tag follows |
| FixRoundTrip.GroupsThrough | src/nasdaq_protocols/fix/core.py:283-290 | clean groups, nested to any depth, are told apart and read back with their slots in definition order |
| FixRoundTrip.NextGroupStops | src/nasdaq_protocols/fix/core.py:283-290 | printed groups start with the first tag of the first group, which belongs to its level and to none below |
| FixRoundTrip.GroupEnds | src/nasdaq_protocols/fix/core.py:202-213 | the parse of a group ends where the next group starts, or where the groups end |
| FixRoundTrip.FirstGroupThrough | src/nasdaq_protocols/fix/core.py:202-213 | so the first of printed groups is read exactly, at every level of nesting |
| FixConverse.ItemsConverse | src/nasdaq_protocols/fix/core.py:194-214 | slots with a value that is not clean never come back, whatever follows |
| FixConverse.EntryConverse | src/nasdaq_protocols/fix/core.py:322-351 | a string with an SOH, or a container with inseparable groups, never comes back |
| FixConverse.GroupsConverse | src/nasdaq_protocols/fix/core.py:332-351 | groups that are empty or do not start inside the one before never come back |
| FixConverse.FirstGroupRead | src/nasdaq_protocols/fix/core.py:202-213 | where the parse of a group ends: before the next group exactly when that starts with a tag already seen |
| FixMessage.SegmentsThrough | src/nasdaq_protocols/fix/core.py:430-435 | header, body and trailer, some of them possibly empty, are told apart by their tags |
| FixMessage.SegmentsConverse | src/nasdaq_protocols/fix/core.py:472-488 | segments with an unclean value never come back |
| FixMessage.RoundTrip | src/nasdaq_protocols/fix/core.py:430-488 | from_bytes(to_bytes(m)) uses every byte and gives the normal form of m if and only if m is not empty and clean |
| FixLeftover.LeftOver | src/nasdaq_protocols/fix/core.py:194-214 | a printed message followed by bytes that start with a tag its last segments do not go on with is read as it would be alone, and those bytes are left over, whatever they are |
| FixLeftover.ForeignLeftOver | src/nasdaq_protocols/fix/core.py:472-488 | so it is after a tag of no segment, whatever the message and whatever follows, between two segments too |
| FixLeftover.UnreadableAfter | src/nasdaq_protocols/fix/core.py:198-205 | after bytes that start with no number, parsing fails |
| FixLeftover.StrayTag | src/nasdaq_protocols/fix/core.py:472-488 | 8=X, 35=B, 58=hi, then 9999=z and the trailer: the message comes back without its trailer |
| FixText.FieldRead | src/nasdaq_protocols/fix/core.py:79-91 | a value stands between the first = and the first SOH; a string is ASCII, an integer a number, a boolean true only for Y |
| FixText.LastFieldRead | src/nasdaq_protocols/fix/core.py:79-91 | the same for a last field without its SOH |
| FixText.FieldBytes | src/nasdaq_protocols/fix/core.py:74-76 | 1=10, 1=-5, 1=Y, 1=N, byte by byte |
| FixText.GroupBytes | src/nasdaq_protocols/fix/core.py:283-290 | two groups, byte by byte: the count first, and the fields of each group in definition order |
| FixNormal.NormalSameMaps | src/nasdaq_protocols/fix/core.py:191-192 | the normal form has the same nested tag-to-value dictionaries as the message |
| FixNormal.NormalSameBytes | src/nasdaq_protocols/fix/core.py:283-290 | printing what was parsed gives the same bytes |
| FixNormal.FirstEntrySeparates | src/nasdaq_protocols/fix/core.py:202-213 | groups that all carry their first-defined entry are always told apart |
| FixNormal.MergedGroups | src/nasdaq_protocols/fix/core.py:340-349 | two one-field groups that are read as one, so that the declared count cannot be met |
| FixFrame.FrameFields | src/nasdaq_protocols/fix/session.py:102-110 | BodyLength counts the bytes up to the checksum field, that field has seven bytes and the byte sum modulo 256, and the reader's length is the frame's |
| FixFrame.HeaderFound | src/nasdaq_protocols/fix/_reader.py:21-29 | the second `=` and the SOH after it, found textually, are those of BodyLength |
| FixFrame.FrameAnnounced | src/nasdaq_protocols/fix/_reader.py:21-31 | whatever bytes follow a frame, the announced length is the frame's |
| FixFrame.FrameType | src/nasdaq_protocols/fix/core.py:490-494 | the first textual `35=` of a frame is its MsgType field |
| FixWire.LogoutBytes | src/nasdaq_protocols/fix/session.py:102-110 | a whole logout frame, byte by byte, with its length and checksum |
| FixWire.ChecksumDigits | src/nasdaq_protocols/fix/session.py:108-109 | the checksum has three digits |
| FixWire.NoTypeWaits | src/nasdaq_protocols/fix/_reader.py:21-42 | the reader waits as long as there is no `35=` |
| FixWire.LengthRead | src/nasdaq_protocols/fix/_reader.py:22-34 | which bytes are read as the body length, and the message length that makes |
| FixFrame.AnswerStands | src/nasdaq_protocols/fix/_reader.py:17-42 | for every registry, an answer stands when more bytes arrive unless a negative length is announced |
| FixFrame.CutStands | src/nasdaq_protocols/fix/_reader.py:28-33 | the bytes cut off as a message do not depend on what follows if and only if the announced length is not negative |
| FixFrame.FixIncremental | src/nasdaq_protocols/fix/_reader.py:17-46 | up to an announced length that is not positive, what the reader answered does not change when more bytes arrive |
| FixNegative.NegativeLength | src/nasdaq_protocols/fix/_reader.py:28-39 | a heartbeat with BodyLength -30: the reader raises, or yields it and moves its read position to -13, depending on what follows |
| FixSession.PrepareCompleteMsg | src/nasdaq_protocols/fix/session.py:102-110 | splicing the three header fields in front and appending the checksum over all bytes gives the frame of the message |
| FixDelivery.FramePrinted | src/nasdaq_protocols/fix/session.py:102-110 | a frame is byte for byte the printed message with the framing fields as slots of its header and trailer |
| FixDelivery.FrameDispatched | src/nasdaq_protocols/fix/core.py:472-488 | a frame is dispatched to its class by type and read back completely, framing fields included |
| FixDelivery.FixFrames | src/nasdaq_protocols/fix/_reader.py:17-42 | the reader yields the message exactly when its whole frame is pending, and reads nothing past it |
| FixWire.OneFrame | src/nasdaq_protocols/fix/core.py:437-441 | one frame, one turn: type 5 closes the session, stops its queue and runs its handler; type 0 changes nothing; any other message is queued |
| FixWire.UnknownType | src/nasdaq_protocols/fix/core.py:472-488 | a frame of an unknown type ends the reader by an exception and leaves the session open |
| FixDelivery.Delivery | src/nasdaq_protocols/fix/_reader.py:17-42 | however a stream of prepared frames is cut up, the reader as it is has exactly the messages of the complete frames accepted, in order, up to a logout |
| FixDelivery.GracefulClose | src/nasdaq_protocols/common/session.py:295-320 | graceful close of a FIX session with its reader as it is: past the drain exactly the messages of the frames that had arrived are delivered, none a logout, and the close handler runs once, after them |
| FixSession.PutSlots | src/nasdaq_protocols/fix/core.py:227-229 | assigning a dictionary slot changes that slot and no other |
| FixSession.StampedSendable | src/nasdaq_protocols/fix/session.py:74-81 | a stamped message is in the codec's domain and not empty; tags 49, 50, 56, 34 and 52 carry the session's names, the number and the time, and everything else is as it was |
| FixSession.Sender.constructor | src/nasdaq_protocols/fix/session.py:95-100 | the session numbers from the logon message's number |
| FixSession.Sender.Send | src/nasdaq_protocols/fix/session.py:74-88 | a message lacking a required body field is refused; else one frame with the session's names, the next number and the time, a ping unless it is a heartbeat, and what was written stays the frames sent, numbered without gaps |
| FixSession.BodyValid | src/nasdaq_protocols/fix/core.py:275-278 | a body is valid exactly when it has every required tag |
| FixSession.NumberArrives | src/nasdaq_protocols/fix/session.py:79-82 | the names, the number and the time a message was stamped with are what its receiver reads |
| FixSession.WireDelivered | src/nasdaq_protocols/fix/session.py:74-110 | however what a sender wrote is cut up, the receiver accepts a prefix of the messages that arrived, all of them once nothing whole is unread; each carries the sender's names and its time, and they are numbered consecutively |
| Framing.ScanExtended | src/nasdaq_protocols/common/session.py:159-186 | reading a stream in two pieces gives the same messages, rest and end as reading it in one |
| Framing.ScanRestWaits | src/nasdaq_protocols/common/session.py:159-168 | what stays unread holds no whole frame |
| Framing.ScanFrames | src/nasdaq_protocols/soup/_reader.py:11-31 | any prefix of a stream of frames yields the non-heartbeat messages of its whole frames before the first logout |
| StreamReader.Reader.OnData | src/nasdaq_protocols/common/session.py:141-146 | data goes to the end of the unread bytes, and while draining the main buffer does not grow |
| StreamReader.Reader.Deserialize | src/nasdaq_protocols/soup/_reader.py:11-31 | exactly one whole frame is taken off the unread bytes or none, compaction changing nothing visible |
| StreamReader.Reader.Process | src/nasdaq_protocols/common/session.py:159-186 | one turn of the loop, byte counts and drain event included, is one step of the abstract reader |
| StreamReader.Reader.StartDrain | src/nasdaq_protocols/common/session.py:121-127 | a drain starts with an empty side buffer; a nested one is refused |
| StreamReader.Reader.EndDrain | src/nasdaq_protocols/common/session.py:131-139 | unless discarded, the unread bytes afterwards are the pending ones followed by the held ones |
| StreamReader.Reader.Bounds | src/nasdaq_protocols/soup/_reader.py:24-29 | storage is at most twice the unread bytes, and compaction moves at most one byte per byte read |
| MessageQueue.Conservation | src/nasdaq_protocols/common/message_queue.py:42-85 | in every run that discards nothing, delivered, queued and held-back entries are all entries put, in order |
| MessageQueue.RemainderThenEnd | src/nasdaq_protocols/common/message_queue.py:150-174 | in every interleaving after stop, gets return the remaining entries in order and then EndOfQueue, if and only if no forgotten dispatcher is left or nothing remains |
| MessageQueue.OrphansExactly | src/nasdaq_protocols/common/message_queue.py:87-157 | a dispatcher the queue has lost track of is there exactly when some call forgot one, and neither a swap of the queues found it waiting nor its cancellation ended it |
| MessageQueue.OrphansNeedCarelessness | src/nasdaq_protocols/common/utils.py:21-33 | runs that never start dispatching inside a pause, and never stop, pause or leave a drain from the dispatcher's own handler, forget no dispatcher |
| MessageQueue.AfterStop | src/nasdaq_protocols/common/message_queue.py:150-157 | over whole histories, the remainder comes out in order after the first stop, from wherever it is called, if and only if no forgotten dispatcher is left or nothing remained |
| MessageQueue.StartedInsidePause | src/nasdaq_protocols/common/message_queue.py:100-107 | starting inside a pause, leaving it and stopping: a forgotten dispatcher takes the entry that was to remain |
| MessageQueue.StoppedFromHandler | src/nasdaq_protocols/common/utils.py:21-33 | stopping from the handler of the first of two entries: the dispatcher goes on to take the second |
| MessageQueue.BusyTaskComesBack | src/nasdaq_protocols/common/message_queue.py:141-148 | a forgotten dispatcher inside its handler when the queues are swapped takes from the new queue |
| MessageQueue.BusyOrphan | src/nasdaq_protocols/common/message_queue.py:100-107 | a run that leaves a forgotten dispatcher inside its handler |
| MessageQueue.WaitingServed | src/nasdaq_protocols/common/message_queue.py:176-183 | a waiting get is served by the first entry exactly when no swap has left it with the old queue |
| MessageQueue.StaleForGood | src/nasdaq_protocols/common/message_queue.py:141-148 | a get left with the old queue is never served, in any run without a stop |
| MessageQueue.WaitingAcrossDrain | src/nasdaq_protocols/common/message_queue.py:150-157 | a get that waits across a drain gets EndOfQueue at stop though an entry remains |
| MessageQueue.OutOfPlace | src/nasdaq_protocols/common/message_queue.py:72-135 | what is out of place is refused and changes nothing: a second dispatcher, a read while dispatching, a pause of no dispatcher, a nested drain, a second stop; a stopped and empty queue gives its end |
| MessageQueue.DispatcherMade | src/nasdaq_protocols/common/message_queue.py:106-127 | starting, and leaving any pause, make a dispatcher: reads are refused and the first entry goes to the handler |
| MessageQueue.DispatcherEnded | src/nasdaq_protocols/common/message_queue.py:100-157 | pausing and stopping end it: the application reads the first entry |
| MessageQueue.PauseUndone | src/nasdaq_protocols/common/message_queue.py:100-107 | a pause in which nothing is started leaves the queue dispatching as before, whatever is put and read inside |
| MessageQueue.DispatchedAfterPause | src/nasdaq_protocols/common/message_queue.py:100-107 | a pause entered and left: the next entry put is handed over |
| MessageQueue.DrainKeepsDispatching | src/nasdaq_protocols/common/message_queue.py:141-148 | leaving a drain, in whatever way, keeps dispatching or not dispatching as it was |
| MessageQueue.DispatchedAfterDrain | src/nasdaq_protocols/common/message_queue.py:141-148 | what a drain held aside is dispatched after it |
| MessageQueue.Queue.PutMessage | src/nasdaq_protocols/common/message_queue.py:42-48 | an entry goes to the side queue while draining, else to the main queue, and always to the end of what was accepted |
| MessageQueue.Queue.GetMessageNowait | src/nasdaq_protocols/common/message_queue.py:72-85 | refused while dispatching; else the first entry, or nothing, or EndOfQueue once stopped |
| MessageQueue.Queue.GetMessage | src/nasdaq_protocols/common/message_queue.py:50-62 | an entry that is there, the end of the queue, or a blocking read; nothing accepted is lost |
| MessageQueue.Queue.WakeReader | src/nasdaq_protocols/common/message_queue.py:176-183 | a blocking read gets the first entry of the queue it waits on |
| MessageQueue.Queue.StartDispatching | src/nasdaq_protocols/common/message_queue.py:116-127 | from then on reads are refused and the dispatcher takes the first entry; nothing accepted is touched |
| MessageQueue.Queue.DispatchOne | src/nasdaq_protocols/common/message_queue.py:165-174 | the dispatcher hands over the first entry and is inside its handler |
| MessageQueue.Queue.OrphanTurn | src/nasdaq_protocols/common/message_queue.py:165-174 | a forgotten dispatcher takes entries like any other, and goes when its cancellation is raised |
| MessageQueue.Queue.PauseDispatching | src/nasdaq_protocols/common/message_queue.py:100-102 | inside a pause a read gets what the dispatcher would have taken; nothing accepted is touched |
| MessageQueue.Queue.ResumeDispatching | src/nasdaq_protocols/common/message_queue.py:106-107 | leaving a pause starts a dispatcher, and forgets one if and only if one was started inside |
| MessageQueue.Queue.EnterBuffering | src/nasdaq_protocols/common/message_queue.py:132-135 | whatever is put from now on leaves the main queue as it is; nothing accepted is touched |
| MessageQueue.Queue.LeaveBuffering | src/nasdaq_protocols/common/message_queue.py:141-148 | the side queue becomes the main queue, and the queue goes on dispatching if it did; tasks that wait stay behind, tasks inside a handler come along; nothing accepted is lost if and only if nothing held back is discarded |
| MessageQueue.Queue.StopQueue | src/nasdaq_protocols/common/message_queue.py:150-157 | stopping keeps the entries, ends a waiting get, and forgets the dispatcher when its own handler makes the call |
| SessionDrain.Conservation | src/nasdaq_protocols/common/session.py:141-186 | over every run, what the queue accepted plus what the unread bytes hold is what all bytes received hold |
| SessionDrain.ChunkingIndependence | src/nasdaq_protocols/common/session.py:373-389 | however data is cut up and interleaved, accepted messages are a prefix of one parse of everything received |
| SessionDrain.StreamDelivery | src/nasdaq_protocols/common/session.py:373-389 | for a stream of frames, accepted messages are those of the frames that arrived completely |
| SessionDrain.QuietTurnWaits | src/nasdaq_protocols/common/session.py:159-168 | a draining turn sets the event only if no whole frame is pending, and otherwise shrinks the pending bytes or stops |
| SessionDrain.RunAgrees | src/nasdaq_protocols/common/session.py:159-186 | runs with a reader that gives up early are runs with the real one as long as it does not give up |
| SessionDrain.FramesNeverCrash | src/nasdaq_protocols/common/session.py:159-186 | on a stream of frames the reader task is never ended by an exception |
| SessionEnds.LogoutTurnCloses | src/nasdaq_protocols/common/session.py:170-176 | a turn that reads an end of session closes the session, stops its queue and runs its handler |
| SessionEnds.OtherTurnsKeepOpen | src/nasdaq_protocols/common/session.py:170-186 | nothing else that a turn reads closes it, an exception included |
| SessionEnds.CloseEnds | src/nasdaq_protocols/common/session.py:302-320 | a plain close stops reader and queue and runs the handler; a second one does nothing |
| SessionEnds.ClosedByLogout | src/nasdaq_protocols/common/session.py:148-186 | over every run in which nobody else closes it: a session is closed, its queue stopped and its handler run once, exactly when its reader has read an end of session |
| SessionEnds.LogoutReached | src/nasdaq_protocols/common/session.py:159-176 | an unread end of session closes the session after one turn of the reader per byte up to its end, whatever arrives meanwhile |
| DrainDiscard.DiscardForgets | src/nasdaq_protocols/common/session.py:131-139 | a drain that discards its buffer leaves the session, in any run, as if the data that arrived during it had never come |
| DrainDiscard.DiscardedDrain | src/nasdaq_protocols/common/session.py:295-300 | and all that was received before it is still read or to be read |
| DrainEnds.GracefulClose | src/nasdaq_protocols/common/session.py:295-320 | when a drain gets past, exactly the messages of the bytes received before it have been delivered, once and in order, and those bytes held no logout |
| DrainEnds.DrainEndsExactly | src/nasdaq_protocols/common/session.py:295-300 | a drain whose waits are given their chance gets past if and only if no logout or malformed frame is pending and every entry is taken |
| DrainEnds.DispatchedDrainEnds | src/nasdaq_protocols/common/message_queue.py:137-140 | with a dispatcher running and only ordinary frames pending, enough turns of reader and dispatcher get a drain past |
| DrainEnds.PastNeeds | src/nasdaq_protocols/common/session.py:121-139 | in any run, a drain that got past had no logout to read and as many entries taken as there were |
| DrainEnds.UnconsumedNeverEnds | src/nasdaq_protocols/common/message_queue.py:137-140 | a drain with an entry and nobody to take it never gets past, in any run |
| DrainEnds.DrainProgress | src/nasdaq_protocols/common/session.py:159-168 | with no logout or malformed frame pending, more reader turns than pending bytes set the drain event |
| DrainEnds.StoppedStays | src/nasdaq_protocols/common/session.py:159-176 | once the reader has stopped before its event was set, that drain never gets past |
| DrainEnds.HandlerOnce | src/nasdaq_protocols/common/session.py:302-320 | over every run of the session the close handler runs at most once, and exactly once when a close has completed, half-closed sessions included |
| DrainEnds.HandlerAfterDrain | src/nasdaq_protocols/common/session.py:302-320 | close with a drain: the handler first runs when exactly what was received before the close has been delivered |
| DrainEnds.DrainAgrees | src/nasdaq_protocols/common/session.py:159-186 | on a stream of frames, a drain goes the same way with a reader that gives up early and with the real one |
| DrainEnds.ClosingDrainEntered | src/nasdaq_protocols/common/session.py:302-315 | a closing drain of an open session is entered if and only if no drain is in progress; otherwise the session is half closed, in every later run |
| DrainEnds.HalfClosedStays | src/nasdaq_protocols/common/session.py:302-320 | half closed for good: whatever follows, the close handler does not run and the queue is not stopped |
| DrainEnds.ConnectionLostWhileDraining | src/nasdaq_protocols/common/session.py:381-386 | a connection lost inside the application's own drain half closes the session |
| DrainEnds.PlainCloseLoses | src/nasdaq_protocols/common/session.py:302-320 | after a close without a drain nothing more is delivered if and only if the dispatcher's own handler did not make it and none was forgotten, or nothing is queued; then exactly what is queued or unread is lost |
| AsyncSession.AsyncSession.constructor | src/nasdaq_protocols/common/session.py:362-371 | a connected session starts in the initial state of the machine |
| AsyncSession.AsyncSession.Handle | src/nasdaq_protocols/common/session.py:121-186 | whatever happens to a session object, a refused closing drain included, its reader and queue together take one step of the machine |
| AsyncSession.AsyncSession.RunEvents | src/nasdaq_protocols/common/session.py:302-389 | any events in any order take a session object through the states of the machine |
| SoupCodec.CodecRoundTrip | src/nasdaq_protocols/soup/core.py:69-344 | for all packet types, unpack inverts pack if and only if the values fit their fields |
| SoupCodec.LengthHeader | src/nasdaq_protocols/soup/core.py:228-235 | the big-endian length header is the packet's length minus two, signed or unsigned |
| SoupCodec.StringField | src/nasdaq_protocols/soup/core.py:335-340 | a padded text field comes back if and only if it fits and has no outer whitespace |
| SoupCodec.NumberField | src/nasdaq_protocols/soup/core.py:343-344 | a padded number comes back as the same text if and only if it is canonical and fits |
| SoupCodec.SoupIncremental | src/nasdaq_protocols/soup/_reader.py:11-31 | for every byte stream, what the reader answered does not change when more bytes arrive |
| SoupCodec.SoupFrames | src/nasdaq_protocols/soup/_reader.py:15-24 | a packed message is yielded exactly when it is complete, whatever follows |
| SoupCodec.UniquelyDecodable | src/nasdaq_protocols/soup/core.py:228-240 | equal streams of packets come from equal message lists |
| SoupCodec.PayloadKept | src/nasdaq_protocols/soup/core.py:228-288 | for the three packets with payloads, a frame of any length is consumed whole and its payload comes back if and only if it has at most 32766 bytes |
| SoupWire.LoginRequestBytes | src/nasdaq_protocols/soup/core.py:135-148 | a login request is L and four left-justified fields of 6, 10, 10 and 20 bytes |
| SoupWire.LoginAcceptedBytes | src/nasdaq_protocols/soup/core.py:173-182 | a login reply is A, the session and the number, left-justified |
| SoupWire.PayloadBytes | src/nasdaq_protocols/soup/core.py:228-283 | the packets with payloads are S, U or +, and the payload |
| SoupWire.ShortBytes | src/nasdaq_protocols/soup/core.py:202-211 | the six short packets, byte by byte |
| SoupWire.Refused | src/nasdaq_protocols/soup/core.py:79-101 | too short, of an unknown type, or of the wrong length for its type: refused |
| SoupWire.Stripped | src/nasdaq_protocols/soup/core.py:339-344 | which characters are taken off both ends of a text and of a number |
| SoupWire.OneBareFrame | src/nasdaq_protocols/soup/_reader.py:11-31 | one frame, one turn, for every type byte: Z and O close the session and run its handler, H and R change nothing, S, U and + are queued, anything else ends the reader |
| SoupDelivery.Delivery | src/nasdaq_protocols/soup/_reader.py:11-31 | however packets are cut up, the session accepts the visible messages of the complete packets, in order |
| SoupDelivery.UndispatchedDrainHangs | src/nasdaq_protocols/common/message_queue.py:137-140 | one packet received, no dispatching, a closing drain: it never gets past and the close handler never runs |
| SoupLogin.CounterCounts | src/nasdaq_protocols/soup/session.py:197-200 | in every run between assignments, the counter grows by the sequenced packets handed over |
| SoupLogin.ReplyIsFirst | src/nasdaq_protocols/soup/session.py:169-175 | the reply that login takes is the first message handed over |
| SoupLogin.CounterInStep | src/nasdaq_protocols/soup/session.py:169-180 | for every packet stream and run, the counter names the last sequenced packet since the reply if and only if reader turns took none before login went on |
| SoupLogin.LaggingRun | src/nasdaq_protocols/soup/session.py:169-180 | a reply and a sequenced packet read before login goes on leave the counter one behind |
| SoupLogin.RefusedClosed | src/nasdaq_protocols/soup/session.py:169-173 | over every run: login is refused exactly when its reply is no acceptance; then the session is closed, its queue stopped and its handler run once |
| SoupLogin.RejectedRun | src/nasdaq_protocols/soup/session.py:169-173 | a login rejection, from its bytes to the closed session |
| SoupApplication.InboxHistory | src/nasdaq_protocols/soup/soup_app.py:122-126 | over every run, the application's queue accepted exactly the decoded sequenced payloads the session dispatched |
| SoupApplication.ApplicationHistory | src/nasdaq_protocols/soup/soup_app.py:85-126 | from the wire to the application's queue: always a prefix of the decoded sequenced payloads in order, all of them once read and dispatched |
| SoupApplication.GracefulCloseDecodes | src/nasdaq_protocols/soup/soup_app.py:122-134 | a graceful close, in any interleaving: when the close handler runs, the application's queue has accepted exactly the decoded payloads that had arrived before the close |
| SoupApplication.SentIsDecoded | src/nasdaq_protocols/soup/soup_app.py:103-108 | payloads made from messages of registered outgoing classes whose bodies survive are all decoded, to their normal forms |
| BinaryInt.IntThrough | src/nasdaq_protocols/common/message/types.py:40-45 | an integer in range is restored for every size, sign and byte order, whatever follows |
| RecordWire.IntDigits | src/nasdaq_protocols/common/message/types.py:40-41 | an integer is the base 256 digits of its two's complement, in the order of its type |
| RecordWire.FourBytes | src/nasdaq_protocols/common/message/types.py:80-91 | 456 and -456 in four bytes, both ways round |
| RecordWire.Ranges | src/nasdaq_protocols/common/message/types.py:107-128 | the ranges of the sizes there are |
| RecordWire.TextBytes | src/nasdaq_protocols/common/message/types.py:53-55 | a string is its length in two bytes, the low one first, and its characters, up to 32767 |
| RecordWire.FixedBytes | src/nasdaq_protocols/common/message/types.py:211-214 | a fixed string has its blanks on the right, or on the left if right-justified, and a longer one is not cut |
| RecordWire.OneByte | src/nasdaq_protocols/common/message/types.py:67-155 | booleans and characters in one byte |
| RecordWire.ShortInput | src/nasdaq_protocols/common/message/types.py:44-50 | a negative count or length reads nothing, and a string that is too short is what there is of it |
| RecordWire.ShortInteger | src/nasdaq_protocols/common/message/types.py:44-45 | an integer is made of the bytes there are |
| RecordRoundTrip.Through | src/nasdaq_protocols/common/message/structures.py:148-183 | decoding an encoding followed by anything gives its exact length and the normal form, which `RecordDefaults.DecodedIs` spells out |
| RecordDefaults.DecodedIs | src/nasdaq_protocols/common/message/structures.py:125-183 | what is decoded, at every depth: a field as it was set, else its default, else 0, false, a blank, an empty string, no elements or an absent record; and no other value is |
| RecordDefaults.DefaultWritten | src/nasdaq_protocols/common/message/structures.py:125-163 | a field that is not set is written as if its default had been set |
| RecordWire.Quantity | src/nasdaq_protocols/common/message/structures.py:125-130 | a number with default 5 and one without, byte by byte |
| RecordWire.SampleBytes | src/nasdaq_protocols/common/message/structures.py:158-215 | a record, behind a present bit, in a record and in an array, byte by byte |
| RecordWire.SampleRead | src/nasdaq_protocols/common/message/structures.py:148-175 | the same bytes read, whatever follows |
| RecordRoundTrip.ArrayThrough | src/nasdaq_protocols/common/message/structures.py:197-224 | arrays, whose elements carry no present bit, are restored element by element |
| RecordRoundTrip.RoundTrip | src/nasdaq_protocols/common/message/structures.py:144-224 | an encodable value comes back in normal form with every byte used if and only if no character is empty and fixed strings fit and are stripped |
| RecordRoundTrip.Converse | src/nasdaq_protocols/common/message/types.py:200-217 | a value that does not survive is never restored, wherever it is nested and whatever follows |
| RecordRoundTrip.EncodeAgain | src/nasdaq_protocols/common/message/structures.py:125-183 | encoding the normal form gives the same bytes, so defaults and absent records are stable |
| RecordRoundTrip.EmptyCharacter | src/nasdaq_protocols/common/message/types.py:162-167 | a record whose empty character takes the byte of the field after it |
| RecordReader.FromBytes | src/nasdaq_protocols/common/message/structures.py:169-175 | a present bit other than one means an absent record of one byte |
| RecordReader.RecordFromBytes | src/nasdaq_protocols/common/message/structures.py:148-156 | the loop over the fields computes the recursive decoder |
| RecordReader.ArrayFromBytes | src/nasdaq_protocols/common/message/structures.py:217-224 | the loop over the elements computes the recursive decoder, past the present bits |
| RecordMessage.Registry.Register | src/nasdaq_protocols/common/message/structures.py:239-253 | a second class for an id is refused and leaves the tables as they were |
| RecordMessage.MessageLayout | src/nasdaq_protocols/common/message/structures.py:259-262 | a message is its indicator in one byte and its body |
| RecordMessage.BlankHolds | src/nasdaq_protocols/common/message/structures.py:73-79 | a blank record holds a blank record for each record among its fields, and nothing else |
| RecordMessage.RoundTrip | src/nasdaq_protocols/common/message/structures.py:255-273 | a message comes back as its class, an absent body as a blank record, if and only if it is registered as outgoing and its body survives |
| RecordMessage.AbsentBody | src/nasdaq_protocols/common/message/structures.py:255-257 | a decoded absent body encodes as absent again if and only if its class nests no record |
| FixSpecification.Deeper | src/nasdaq_protocols/fix/parser/parser.py:110-133 | what inlining yields does not depend on the depth once it is deep enough |
| FixSpecification.AcyclicSettles | src/nasdaq_protocols/fix/parser/parser.py:124-131 | components without a cycle are inlined within their rank |
| FixSpecification.OrderIndependent | src/nasdaq_protocols/fix/parser/parser.py:124-131 | inlining does not depend on the order components are declared in |
| FixSpecification.InlinedExample | src/nasdaq_protocols/fix/parser/parser.py:110-146 | a field, a component and a group come out in order, the component replaced, each with its own required flag |
| FixSpecParser.Definitions.HandleEntries | src/nasdaq_protocols/fix/parser/parser.py:48-51 | appending the children of an element appends exactly their pure inlining, and memoised components stay right |
| FixSpecParser.Definitions.HandleEntry | src/nasdaq_protocols/fix/parser/parser.py:110-142 | a field, group or component, memoised or parsed on demand, adds exactly its pure inlining |
| FixSpecParser.Definitions.HandleComponent | src/nasdaq_protocols/fix/parser/parser.py:100-107 | a component is memoised with its pure inlining |
| FixSpecParser.Definitions.HandleComponents | src/nasdaq_protocols/fix/parser/parser.py:94-97 | every declared component ends up memoised, or one of them cannot be inlined |
| FixSpecParser.Definitions.HandleMessages | src/nasdaq_protocols/fix/parser/parser.py:60-70 | every message gets its pure inlining, or one of them cannot be inlined |
| FixSpecParser.Definitions.HandleFields | src/nasdaq_protocols/fix/parser/parser.py:73-91 | the field table is that of the declarations, or one is malformed |
| FixSpecParser.TableNames | src/nasdaq_protocols/fix/parser/parser.py:78-91 | the table fails exactly when a declaration is malformed, and has exactly the names declared |
| FixSpecParser.TableMeans | src/nasdaq_protocols/fix/parser/parser.py:84-91 | a name means the number, name and type of its last declaration |
| FixSpecParser.Definitions.HandleSection | src/nasdaq_protocols/fix/parser/parser.py:42-43 | handling one more section keeps header, trailer, messages and components what inlining gives |
| FixSpecParser.Parse | src/nasdaq_protocols/fix/parser/parser.py:26-45 | the whole memoised parse gives every part its pure inlining, or some part named cannot be read or inlined |
| FixSpecParser.NoProblem | src/nasdaq_protocols/fix/parser/parser.py:110-133 | if every part can be inlined nothing stops the parse |
| FixSpecParser.AcyclicNoLimit | src/nasdaq_protocols/fix/parser/parser.py:124-131 | components without a cycle never end the parse by recursion depth |
| FixSpecParser.DeclarationOrder | src/nasdaq_protocols/fix/parser/parser.py:94-107 | documents that differ only in the order of component declarations are parsed alike |
| Heartbeat.HeartbeatMonitor.Tick | src/nasdaq_protocols/common/session.py:73-90 | a tick trips if and only if the last max(1, tolerate) windows were silent, the first window counting as pinged |
| Heartbeat.DetectionLatency | src/nasdaq_protocols/common/session.py:73-93 | the first trip comes between t and t+1 intervals after the last ping, or after the start when there was none |
| Heartbeat.SteadyTraffic | src/nasdaq_protocols/common/session.py:79-83 | traffic in every window never trips the monitor |
| Heartbeat.TransmissionGap | src/nasdaq_protocols/common/session.py:328-333 | while the local monitor runs, something is sent within two intervals of any moment |
| CloseProtocol.Session.Close | src/nasdaq_protocols/common/session.py:302-320 | closing ends from every state, does nothing the second time, and completes unless it drains first or is refused inside the application's drain |
| CloseProtocol.Session.ReaderStop | src/nasdaq_protocols/common/session.py:148-154 | stopping the reader closes the session, and stopping it within a close ends |
| CloseProtocol.Session.Handle | src/nasdaq_protocols/common/session.py:369-386 | a lost connection or a request makes one closing task, with a drain as configured or requested; the task, a heartbeat trip, a logout or a close then closes an open session, draining exactly when asked, and closed stays closed |
| CloseProtocol.Session.Run | src/nasdaq_protocols/common/session.py:276-320 | over any order of events the user's close handler runs at most once, exactly once when closing completes, and never when a closing drain was refused |

## Left out

- FixCodec.UnpackValue: `int()` of Python also takes blanks, underscores and other digits; here these are failures, as is a bool stored in an int field.
- FixFrame.FixIncremental: after the reader has moved its read position back, or to a length of zero, the session theorems say nothing; `StreamReader.Deserialized` shows the one step.
- FixSession.Sender.Send: the formatting of the clock is not modelled; the time is a parameter, and the ping is a count.
- FixMessage.RoundTrip: the schema must not use a tag twice at one level or in a segment and below an earlier one; two different groups may share inner tags.
- FixDelivery.FixFrames: the application leaves BeginString, BodyLength, MsgType and CheckSum to the session, and BeginString and MsgType hold no `=` or SOH.
- DrainEnds.GracefulClose: handed to the handler, not finished by it; a handler's exception is logged by the code and not seen here.
- SessionDrain.Conservation: runs that close without draining or discard what a drain held back lose it and are excluded (`DrainEnds.PlainCloseLoses` and `DrainDiscard.DiscardForgets` say what).
- MessageQueue.Queue.GetMessage: `get` treats falsy entries as absent; entries are taken to be truthy, and a second `get` while one waits is outside the single-reader use the code is written for.
- StreamReader.Reader.Process: a turn is atomic because the handler only puts on an unbounded queue; handlers that suspend between two byte counts are not modelled.
- CloseProtocol.Session.Run: the mutual recursion of close and stop, with the drain a single event; the drain itself is in `DrainEnds`. The reader's task cancelling itself in `stop` is not modelled.
- MessageQueue.AfterStop: what a pending cancellation does inside a handler is left open: it may end the dispatcher at any suspension or be swallowed there. A pause left after `stop` starts a dispatcher again.
- DrainEnds.DrainEndsExactly: a drain that the dispatcher's own handler waits for is a schedule in which that dispatcher takes nothing more.
- SoupApplication.ApplicationHistory: direct reads of the session's queue while the application is attached are excluded; the dispatcher would refuse them unless paused.
- SoupLogin.CounterInStep: before login goes on, only data, reader turns and login itself happen.
- RecordCodec.Encode: values are of their field's type, since assignment refuses others; outside `RecordMessage` the automatic creation of nested records by a constructor is the caller's.
- RecordReader.ArrayFromBytes: arrays of fixed-length strings or of arrays cannot be built in the code and are excluded from the round trip.
- FixSpecParser.Parse: field definitions stand last in the document and component names differ, as in the published specifications; duplicate components are resolved by parse order.
- FixSpecParser.Definitions.HandleEntry: Python's recursion limit is a bound on nested component references only.
- Code points above 255, which every codec but UTF-8 refuses, and FixFloat and the other float fields.
- asyncio scheduling, transports, sockets, `connect_async`, `start_server`, `SyncExecutor` and the synchronous client: library behaviour or threads.
- ASN.1 messages, code generators, templates, command line and tail tools, XML reading: tables and text rendering only.
