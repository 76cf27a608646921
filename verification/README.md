# Verification of the abs-software core

abs-software runs small satellites on a phone: modules talk to each other and to a payload
board over a System Data Bus (SDB), in packets of the Mission Control System (MCS) format, and a
scheduler shares tasks among satellites. This project models the parts of it that hold protocol
state, linked structures, buffers or a search, and proves what they promise.

| files | what they model |
|---|---|
| `Bus`, `BusAnswers`, `BusDelivery`, `BusMailbox`, `BusRouting` | the bus as a labelled transition system: one thread, one-slot mailbox and queue per module; theorems over every run |
| `Mailbox`, `MailboxRegion` | the 1024-byte block behind a mailbox: what the copies leave in it and what is read out of it, on values and on an array |
| `BusThread`, `BusSystem` | a module thread with its linked queue and its block, and any number of them together: everything they do is a step of the transition system |
| `SdbQueue`, `LinkedQueue` | the queue of outstanding packets: as a sequence, and as a doubly linked list with swaps |
| `Qos` | the event log: ten hashed, singly linked lists that refine a map from module to log |
| `Usb` | the pipeline to the payload board, over every interleaving of its threads, and the threads on their two linked queues |
| `PendingList` | the requests a client waits for: as a sequence newest first, and as a doubly linked list |
| `Mcs`, `McsBytes`, `McsFraming`, `McsIo` | the wire format for an arbitrary command table: writer, checker, reader, the place of every byte, and the loops that move the bytes |
| `Json`, `JsonReader`, `JsonStrings`, `JsonLiteral`, `JsonBuffers`, `JsonLayout`, `JsonRoundTrip`, `JsonMinify` | the bundled cJSON: printer, parser, two-pass buffers, UTF-16 to UTF-8 transcoder, in-place minifier |
| `JsonGrammar`, `JsonAccepted`, `JsonDerived`, `JsonStandard` | the texts the parser takes, as a grammar apart from it: that of RFC 8259 and the liberties of the source |
| `Shed`, `ShedObjective`, `ShedSearch`, `ShedPruning` | the scheduler: what is maximised, mixed-radix odometer, exhaustive search on arrays, duplicate deletion |
| `Mcsg` | the command-table generator and the run-time splitter of its enumeration values |
| `Csv` | the CSV writer and reader of the bundled SQLite shell |

How things are modelled:

- A function on values says what an operation computes; the theorems are about these functions
  and about runs built from them. The loops, arrays, linked lists and objects of the source are
  methods and classes proved to compute those functions.
- Bytes are integers from 0 to 255. C strings are sequences without NUL; a read at the end of a
  text yields NUL. Masks and shifts are written as division and remainder. `double` and `float`
  are `real`.
- A bus step is what a thread does between two points at which it can be made to wait. A thread
  that is to fill a mailbox is in a state of its own, and can fill it only when the receiver waits
  with an empty slot, or is the sender itself. A run is a sequence of labels; theorems about runs
  hold for all of them.
- Sockets, the board and the descriptors appear as labels and byte sequences, the clock as a value
  stored in an event, random draws as arguments. That request ids are fresh is a hypothesis on
  runs, stated only where it is needed.

Where the code and its comments or names disagree, the model follows the code:

- `solve` has the loop for deleting duplicates, with the call commented out. `Scheduler.Solve`
  searches whatever lists it is given; `Prune` is that loop with the call in place, and
  `SameMaximum` says that it would make no difference to the maximum.
- The mailbox size test (sdb_module.c:379) leaves out the sender's id and the destination, so it
  admits packets whose image is longer than the block (`AdmittedOverruns`). A write has an outcome
  for that, and `RunFits` says exactly which runs are free of it.
- The two passes of `parse_string` do not agree on what a `\u` escape spans, so the second can
  write more than the first counted (`QuoteInEscape`). `LiteralFits` says exactly when it does not
  leave the literal; the parser has an outcome `Overrun` for leaving the text or the buffer.
- `cJSON_Minify` runs past the terminator of a text that ends inside a literal or a block comment,
  and of no other (`MinifyStaysInside`).
- `sdb_queue_pop_block` loads the first element before it waits and uses what it loaded afterwards
  (sdb_queue.c:147-154), so on an empty queue it dereferences null. `Pop` returns `None` there and
  nowhere else.
- The two length formulas of the USB format agree below 128 bytes only (`SizesAgree`).
- `mcs_command` shifts the type by 2 where the enumeration has it at bit 16 (`RecombinesMessagesOnly`).
- The group loops count `sizeof` of a pointer. The number of inspected slots is a parameter, up to
  the size of the array.
- An empty object prints a line break and one tab less than its depth, not `{}`.

## Model

| member | source | states |
|---|---|---|
| `JsonRoundTrip.ValueRoundTrip` | src/Architecture/MCS/cJSON.c:287-507 | For every tree whose numbers are 32-bit integers, at every depth, formatted or not, and before every text that is empty or does not continue a number, parsing the printed text gives back the same tree and stops exactly where that text begins |
| `JsonRoundTrip.StringRoundTrip` | src/Architecture/MCS/cJSON.c:155-248 | Every NUL-free byte string, printed as a literal and parsed, comes back unchanged, whatever follows the closing quote |
| `JsonRoundTrip.NumberRoundTrip` | src/Architecture/MCS/cJSON.c:96-138 | Every integer printed in decimal is parsed to the same number and the parser stops behind its last digit |
| `JsonRoundTrip.ArrayRoundTrip` | src/Architecture/MCS/cJSON.c:320-403 | The printed form of a list of values, empty list included, parses to the same array |
| `JsonRoundTrip.ObjectRoundTrip` | src/Architecture/MCS/cJSON.c:406-507 | The printed form of a list of members, with its line breaks and indentation and with the empty object, parses to the same object, keys and order included |
| `JsonRoundTrip.EscapedContained` | src/Architecture/MCS/cJSON.c:155-248 | What the printer puts between quotes has no escape that reaches beyond the closing quote, so both passes of the parser stay inside it |
| `JsonReader.DocumentRoundTrip` | src/Architecture/MCS/cJSON.c:261-284 | A printed document with any blanks before and after it is accepted in the mode that requires the text to end, and gives the tree back |
| `JsonReader.ReadNumber` | src/Architecture/MCS/cJSON.c:96-115 | The digit loops compute the sign, mantissa, fraction and exponent of the specification and stop where it stops |
| `JsonReader.ReadValue` | src/Architecture/MCS/cJSON.c:287-299 | For every text the dispatch on the first character returns what the specification assigns to it: a value and where it ends, a failure, or a literal that leaves the text or its buffer |
| `JsonReader.ReadArray` | src/Architecture/MCS/cJSON.c:320-345 | For every text behind an opening bracket the element loop, which appends to the child list, returns what the specification assigns to it, failures and overruns included |
| `JsonReader.ReadObject` | src/Architecture/MCS/cJSON.c:406-439 | The same for the member loop behind an opening brace |
| `JsonReader.ReadDocument` | src/Architecture/MCS/cJSON.c:264-278 | For every text leading blanks are skipped, and with the end required anything but blanks behind the value is a failure |
| `JsonDerived.ParsesExactly` | src/Architecture/MCS/cJSON.c:287-439 | For every text, value and rest: the parser accepts the text with this value and stops at this rest if and only if there is a derivation, in the grammar of RFC 8259 with the liberties of the source written out, that has this value and spells the text in front of the rest; so every other text, with a comma, colon, bracket or value missing, is not accepted |
| `JsonDerived.Derived` | src/Architecture/MCS/cJSON.c:287-439 | The half that excludes: from an accepted text the derivation is found, so the rest is a suffix and what precedes it stands for the value |
| `JsonAccepted.Accepted` | src/Architecture/MCS/cJSON.c:287-439 | The other half: every derivation is parsed to its value, maximal digits, unclosed strings at the end and escapes for no character included |
| `JsonDerived.DocumentExactly` | src/Architecture/MCS/cJSON.c:264-278 | In the mode that requires the end a text is accepted if and only if it is a derivation with blanks around it |
| `JsonDerived.DocumentBegins` | src/Architecture/MCS/cJSON.c:264-278 | In the other mode, if and only if it begins with blanks and a derivation |
| `JsonDerived.Refused` | src/Architecture/MCS/cJSON.c:287-299 | The empty text, an unknown word, a bracket with only a comma and lone opening brackets are refused |
| `JsonDerived.OverrunsInLiteral` | src/Architecture/MCS/cJSON.c:287-439 | What is neither accepted nor refused has a literal in it on which the two passes of the string parser disagree; and whatever is accepted, the rest is a suffix of the text |
| `JsonAccepted.NumeralRead` | src/Architecture/MCS/cJSON.c:96-115 | A number of sign, leading zero, digits, fraction and exponent, each as long as it can be, is read as the real number it stands for |
| `JsonAccepted.PowersOfTen` | src/Architecture/MCS/cJSON.c:96-115 | The scaling is by the power of ten of the exponent, negative ones included |
| `JsonAccepted.StringAccepted` | src/Architecture/MCS/cJSON.c:155-212 | A string of characters, short escapes, escapes of UTF-16 units and escapes for nothing is read as the bytes of its pieces |
| `JsonAccepted.HexDigits` | src/Architecture/MCS/cJSON.c:140-153 | The hex digits are the ten figures and six letters of either case, with their values |
| `JsonStandard.StandardAccepted` | src/Architecture/MCS/cJSON.c:287-439 | Every text that the grammar of RFC 8259 (sections 2 to 7) derives, fractions and exponents included, is parsed to the value of its derivation, before every text that does not continue a number |
| `JsonStandard.DocumentAccepted` | src/Architecture/MCS/cJSON.c:264-278 | Such a text with blanks around it is accepted in the mode that requires the text to end |
| `JsonBuffers.PrintValue` | src/Architecture/MCS/cJSON.c:302-317 | The printer returns the text of the specification, every store of it inside the buffer that was sized beforehand |
| `JsonBuffers.PrintNumber` | src/Architecture/MCS/cJSON.c:118-138 | A 32-bit integer is printed in decimal within the buffer set aside for it |
| `JsonBuffers.PrintArray` | src/Architecture/MCS/cJSON.c:348-403 | The text of an array is composed in a buffer of the length added up from its entries |
| `JsonBuffers.PrintObject` | src/Architecture/MCS/cJSON.c:442-507 | The text of an object is composed in a buffer of the length added up from its names and entries |
| `JsonBuffers.PrintEmptyObject` | src/Architecture/MCS/cJSON.c:450-459 | An empty object is composed within the length computed for it, at every depth |
| `JsonBuffers.ComposeArray` | src/Architecture/MCS/cJSON.c:391-402 | Filling a buffer of exactly the computed size yields the entries, separated, between brackets |
| `JsonBuffers.ComposeObject` | src/Architecture/MCS/cJSON.c:490-506 | Filling a buffer of exactly the computed size yields the members, indented, between braces |
| `JsonBuffers.JoinFits` | src/Architecture/MCS/cJSON.c:348-403 | For every list of entries the composed array, its brackets and terminator are no longer than the size pass says |
| `JsonBuffers.JoinMembersFits` | src/Architecture/MCS/cJSON.c:442-507 | For every list of members the composed lines are no longer than the size pass says |
| `JsonLayout.EscapesPrinted` | src/Architecture/MCS/cJSON.c:215-248 | Which characters are printed as they are, which behind a backslash, with which letter, and which as four hex digits |
| `JsonLayout.ArrayPrinted` | src/Architecture/MCS/cJSON.c:348-403 | The elements stand between brackets, a comma between any two and a blank behind it when formatted |
| `JsonLayout.ObjectPrinted` | src/Architecture/MCS/cJSON.c:442-507 | When formatted every member stands on a line of its own behind as many tabs as it is deep, with a tab behind the colon, and the closing brace behind one tab less; an empty object has a line break and one tab less still |
| `JsonStrings.PrintStringLiteral` | src/Architecture/MCS/cJSON.c:215-248 | The size pass and the write pass agree: the literal, its quotes and the terminator fill the buffer exactly |
| `JsonStrings.EscapeLength` | src/Architecture/MCS/cJSON.c:220-246 | What the size pass counts for a character is the length of its escape |
| `JsonStrings.ParseStringLiteral` | src/Architecture/MCS/cJSON.c:155-212 | For every text the two passes return the decoded literal and where it ends, or report that the first pass leaves the text, or the second the text or the buffer sized by the first; no store is made outside the buffer otherwise |
| `JsonLiteral.LiteralFits` | src/Architecture/MCS/cJSON.c:155-212 | For every literal the first pass measures, the second pass stays inside it and writes at most what was counted if and only if no escape it comes to (2, 6 or 12 characters) extends beyond its end |
| `JsonLiteral.ContainedFits` | src/Architecture/MCS/cJSON.c:155-212 | The direction that needs the two passes side by side: with such escapes the bytes written never exceed those counted, although the passes disagree about which backslashes begin an escape |
| `JsonLiteral.LiteralRead` | src/Architecture/MCS/cJSON.c:155-212 | A literal with contained escapes is parsed to what the second pass writes |
| `JsonLiteral.QuoteInEscape` | src/Architecture/MCS/cJSON.c:155-212 | The concrete failure: a quote right behind the u of an escape ends the literal for the first pass and not for the second; one byte is counted and two are written |
| `JsonLiteral.BackslashInEscape` | src/Architecture/MCS/cJSON.c:155-212 | A backslash among the four characters behind the u is harmless while the escape ends inside the literal |
| `JsonLiteral.PairSplitByEscape` | src/Architecture/MCS/cJSON.c:155-212 | Two-character escapes belong to the condition: one that starts in the middle of a pair of backslashes can take the closing quote with it |
| `JsonStrings.TranscodeIsUtf8` | src/Architecture/MCS/cJSON.c:179-201 | For every Unicode scalar value but NUL the bytes emitted are a well-formed UTF-8 sequence (section 4 of RFC 3629) that decodes to that value (section 3) |
| `JsonStrings.EscapedCharacter` | src/Architecture/MCS/cJSON.c:179-201 | A character written as one escape or as a surrogate pair, in hex digits of either case, is read as its UTF-8 bytes |
| `JsonStrings.SurrogatesDecode` | src/Architecture/MCS/cJSON.c:184-190 | The arithmetic on a surrogate pair undoes the UTF-16 encoding of section 2.1 of RFC 2781 |
| `JsonStrings.WriteUtf8` | src/Architecture/MCS/cJSON.c:192-200 | The backwards stores leave the bytes of the encoding in order and touch nothing before them |
| `JsonMinify.MinifyPrinted` | src/Architecture/MCS/cJSON.c:581-596 | Minifying the formatted text of a tree gives its unformatted text, byte for byte |
| `JsonMinify.MinifyValue` | src/Architecture/MCS/cJSON.c:581-596 | The same at every depth and before every further text: the value shrinks to its unformatted text and the rest is minified on its own |
| `JsonMinify.MinifyStaysInside` | src/Architecture/MCS/cJSON.c:581-596 | For every text the pass stays in front of the terminator if and only if the text ends outside of literals and block comments, as one scan that builds no output tells |
| `JsonMinify.MinifyKeeps` | src/Architecture/MCS/cJSON.c:581-596 | For every such text the result is the text without the characters that stand outside of literals and are blank, and without comments: character by character, by the place each one has |
| `JsonMinify.UnclosedOverruns` | src/Architecture/MCS/cJSON.c:581-596 | The concrete failures: a lone quote, an unclosed block comment, a literal whose closing quote is escaped |
| `JsonMinify.PrintedIsClosed` | src/Architecture/MCS/cJSON.c:581-596 | What the printer produces is never such a text |
| `JsonMinify.UnformattedDepth` | src/Architecture/MCS/cJSON.c:302-507 | Unformatted text does not depend on the depth at which it is printed |
| `JsonMinify.MinifyInPlace` | src/Architecture/MCS/cJSON.c:581-596 | For every text that ends outside of literals and block comments the pass over the buffer leaves the minified text and a terminator; the write position never overtakes the read position, nothing unread is overwritten and nothing behind the terminator is touched |
| `JsonMinify.SkipLineComment` | src/Architecture/MCS/cJSON.c:590 | A line comment is skipped up to its line feed or the end |
| `JsonMinify.SkipBlockComment` | src/Architecture/MCS/cJSON.c:591 | A closed block comment is skipped with its closing mark |
| `JsonMinify.CopyLiteral` | src/Architecture/MCS/cJSON.c:592 | A literal is copied whole, an escaped quote not ending it |
| `McsFraming.StreamRoundTrip` | src/Architecture/Libraries/MCS/mcs.c:232-414 | For every command table and every sequence of well-framed packets, reading from the concatenated images and any suffix gives the packets in order and leaves the suffix |
| `McsFraming.PacketRoundTrip` | src/Architecture/Libraries/MCS/mcs.c:232-414 | One image before any further bytes is read as that packet and the further bytes are left |
| `McsFraming.ReadConsumes` | src/Architecture/Libraries/MCS/mcs.c:14-94 | Whatever is accepted satisfies the facts of its table row, and what was consumed is determined by the packet |
| `McsFraming.ReaderBacks` | src/Architecture/Libraries/MCS/mcs.c:232-310 | In every packet that is accepted, argument and data pointers lead to as many bytes as the counts say |
| `McsFraming.AcceptedRewrites` | src/Architecture/Libraries/MCS/mcs.c:96-181 | An accepted packet is written back as exactly the bytes consumed if and only if it has the data its type calls for and no NUL in its destination |
| `McsFraming.EmptyAnswerIsLost` | src/Architecture/Libraries/MCS/mcs.c:96-181 | The concrete failure: an answer with data of length zero is read, and refused when it is to be written |
| `McsIo.WriteCommand` | src/Architecture/Libraries/MCS/mcs.c:312-414 | Filling the precomputed buffer from left to right produces the image of a checked packet, and a packet that fails the check produces nothing |
| `McsIo.Connection.ReadCommand` | src/Architecture/Libraries/MCS/mcs.c:232-310 | Draining the descriptor piece by piece decodes one packet; a malformed one is answered with an error that carries its id, and a missing id is not answered |
| `McsIo.Connection.ReadCheckConfig` | src/Architecture/Libraries/MCS/mcs.c:14-94 | Arguments, destination and data are read as the table row demands, and every shortage is an error |
| `McsIo.Connection.AbsRead` | src/Architecture/Libraries/ABS/abs.c:38-85 | All the bytes asked for, or none with everything consumed |
| `McsIo.ErrPacketChecked` | src/Architecture/Libraries/MCS/mcs.c:449-464 | An error answer passes the check for every table and carries its code |
| `McsBytes.HeaderWritten` | src/Architecture/Libraries/MCS/mcs.c:312-414 | In every image byte i below 4 is the i-th byte of the id, the lowest first, and byte 4 is the type |
| `McsBytes.AnswerWritten` | src/Architecture/Libraries/MCS/mcs.c:312-414 | Behind it an answer has nothing, its error data, or the size of its data, low byte first, and the data |
| `McsBytes.CommandWritten` | src/Architecture/Libraries/MCS/mcs.c:312-414 | A command has its index at bytes 5 and 6, low byte first, then its arguments, the length and characters of its destination, and the size of its data, low byte first, with the data; nothing else |
| `McsBytes.NotWritten` | src/Architecture/Libraries/MCS/mcs.c:96-181 | The packets that are not written at all, by their fields and the table |
| `McsBytes.HeaderRead` | src/Architecture/Libraries/MCS/mcs.c:232-310 | Below four bytes there is no packet; else the id of what is accepted or refused is the sum of the first four bytes, the lowest first, and the type of what is accepted is the fifth |
| `McsBytes.AnswerRead` | src/Architecture/Libraries/MCS/mcs.c:232-310 | For all bytes with the type of an answer or an unknown type: what packet they are, or with which remaining bytes they are refused |
| `McsBytes.CommandRead` | src/Architecture/Libraries/MCS/mcs.c:14-94 | The same for commands: index, arguments, destination and data are the bytes at the places the table row gives them |
| `McsBytes.TableRows` | src/Architecture/Libraries/MCS/mcs.c:14-94 | Which table the rows of a type are in, and which rows have their destination in the packet |
| `SdbQueue.RunSound` | src/Architecture/SDB/sdb_queue.c:68-157 | Over every interleaving of pushes, gets and pops: what was pushed is, as a multiset, what is queued plus what was removed, priorities never rise along the queue, and packets pushed with rising serials stay in order of arrival within a priority |
| `SdbQueue.PushesSortStably` | src/Architecture/SDB/sdb_queue.c:68-108 | A run of pushes leaves a stable descending sort of what was pushed, a permutation of it |
| `SdbQueue.StableSortUnique` | src/Architecture/SDB/sdb_queue.c:68-157 | There is only one stable sort, so the order in which packets are drained is fixed by the pushes |
| `SdbQueue.InsertFifo` | src/Architecture/SDB/sdb_queue.c:68-108 | A push only appends to the packets of its own priority and leaves the other classes as they are |
| `SdbQueue.InsertConserves` | src/Architecture/SDB/sdb_queue.c:68-108 | A push adds its packet and nothing else |
| `SdbQueue.InsertOrdered` | src/Architecture/SDB/sdb_queue.c:68-108 | A push of a younger packet keeps the queue ordered by priority and age |
| `SdbQueue.TakesMostUrgent` | src/Architecture/SDB/sdb_queue.c:122-138 | The packet found for an id is the most urgent one with that id, and the oldest of those |
| `SdbQueue.TakesInOrder` | src/Architecture/SDB/sdb_queue.c:68-157 | After any run: a push adds its packet, a pop takes the most urgent packet and the oldest of those, a get the most urgent and oldest one with its id and nothing without one |
| `LinkedQueue.LinkedQueue.constructor` | src/Architecture/SDB/sdb_queue.c:159-166 | A new queue is an empty well-formed list |
| `LinkedQueue.LinkedQueue.Push` | src/Architecture/SDB/sdb_queue.c:68-108 | Appending and swapping backwards through the links inserts the packet behind all packets of at least its priority; links and both ends stay well formed |
| `LinkedQueue.LinkedQueue.SwapBack` | src/Architecture/SDB/sdb_queue.c:86-107 | One swap exchanges two neighbours in the chain and nothing else, at the ends too |
| `LinkedQueue.LinkedQueue.Get` | src/Architecture/SDB/sdb_queue.c:122-138 | The first packet with the id is removed and returned; without one the list stays as it is |
| `LinkedQueue.LinkedQueue.Pop` | src/Architecture/SDB/sdb_queue.c:141-157 | The first packet is removed and returned; exactly on an empty queue there is none, because the null loaded before the wait is dereferenced after it |
| `LinkedQueue.LinkedQueue.Delete` | src/Architecture/SDB/sdb_queue.c:5-22 | Exactly the given element leaves the chain |
| `Qos.QosTable.constructor` | src/Architecture/SDB/sdb_qos.c:118-128 | All logs start empty |
| `Qos.NothingLost` | src/Architecture/SDB/sdb_qos.c:79-229 | Over every interleaving of switching on, switching off, events and dumps: what was dumped of a module followed by its log is exactly the sequence of its events seen while its last switch was to on; none is lost, kept twice or out of order |
| `Qos.QosTable.Register` | src/Architecture/SDB/sdb_qos.c:79-109 | For every module, those in the same bucket included, the table moves as its ledger does: the event goes to the end of the log of its own module while that is recorded, and nothing else changes |
| `Qos.QosTable.Dump` | src/Architecture/SDB/sdb_qos.c:142-229 | The dump is the log of the module in order, and the ledger of every module moves by that dump: this log is empty afterwards, every other is as before, and with recording off nothing happens |
| `Qos.Bucket.Extract` | src/Architecture/SDB/sdb_qos.c:158-224 | One pass unlinks the nodes of one module, keeps the others in order and leaves correct first and last pointers |
| `Qos.Bucket.Append` | src/Architecture/SDB/sdb_qos.c:79-109 | The event becomes the last node of its bucket |
| `Qos.OthersKeep` | src/Architecture/SDB/sdb_qos.c:142-229 | Taking one module out leaves none of its events and all events of every other module, in order |
| `BusAnswers.AnswersFindTheirRequests` | src/Architecture/SDB/sdb_module.c:228-316 | In every run with distinct request ids, self-sends included: an answer written to a client carries the id of a command that client sent, was sent by the client of the module the command was routed to, and is the only one with that id |
| `BusAnswers.RunKeeps` | src/Architecture/SDB/sdb_module.c:228-316 | In every such run each request is accounted for: the records, answers under way and deliveries with its id never exceed one, or two for a request to oneself |
| `BusAnswers.StepKeeps` | src/Architecture/SDB/sdb_module.c:27-316 | Every step of any thread keeps that account |
| `BusAnswers.RunTraced` | src/Architecture/SDB/sdb_module.c:228-316 | Every recorded request was read from the socket of its origin and routed as the table permits, and every delivered answer was read from the socket of the module it is attributed to |
| `BusDelivery.RequestAndReturn` | src/Architecture/SDB/sdb_module.c:27-470 | After any run with distinct ids, for any request under a new id that is permitted and has room, between modules that wait for work, to oneself included, and any answer with its id that has room: the six steps request, write, read, answer, write, read can be taken, the other client gets the request, the requester gets exactly this answer as one from that module, and every thread, mailbox and queue is then as it was |
| `BusDelivery.AnswerGoesBack` | src/Architecture/SDB/sdb_module.c:279-295 | An answer takes the first record with its id out of the queue and is on its way to the module of that record exactly if there is such a module and structure, arguments and data are at most 1024 bytes; without a record nothing happens |
| `BusDelivery.RequestGoesOut` | src/Architecture/SDB/sdb_module.c:27-226 | A command is recorded exactly if it is a permitted message or a known payload command, and is on its way to a module exactly if it is a message permitted to go there and passes the size test |
| `BusDelivery.Hop` | src/Architecture/SDB/sdb_module.c:368-470 | A packet with room on its way to a waiting module can be written and read there: it arrives as sent, a request is recorded, an answer takes its record and is delivered if there is one |
| `BusMailbox.MailboxExactlyOnce` | src/Architecture/SDB/sdb_module.c:368-470 | In every run the packets a module has read out of its memory block are those written to it, in order and each once, with the sender, destination, arguments and data they were sent with; at most the last is still waiting; the branch that reports a deadlock is never reached; and a write runs over the end of a block if and only if a packet was written that has no room in it |
| `BusMailbox.RunFits` | src/Architecture/SDB/sdb_module.c:379-421 | A run is free of overruns if and only if each packet written satisfies a test on its destination length, argument count, data size and the structure size |
| `BusMailbox.RoomyInputsFit` | src/Architecture/SDB/sdb_module.c:368-421 | If all clients send only packets that pass that test, no run overruns |
| `BusMailbox.AdmittedOverruns` | src/Architecture/SDB/sdb_module.c:379-421 | The concrete failure: with a structure of 40 bytes, 984 bytes of data pass the size test of the source, and in a run of three steps the write leaves the block |
| `BusMailbox.StepBoxes` | src/Architecture/SDB/sdb_module.c:368-470 | Every step of any thread keeps this: what was read is what was written but for the packet whose image is in the slot, that image fits and reads back as the packet, no write met a full slot, and a thread about to write has an empty slot of its own |
| `BusRouting.RunRoutes` | src/Architecture/SDB/sdb_module.c:48-154 | In every run, whatever the ids, table and number of inspected slots: a command in or on its way to a mailbox names the first module registered under its destination name, and both groups stand in an inspected slot or their list begins with ANY; a queued packet of another module was routed here |
| `BusRouting.StepRoutes` | src/Architecture/SDB/sdb_module.c:48-154 | Every step of any thread keeps that |
| `BusRouting.PermittedStays` | src/Architecture/SDB/sdb_module.c:48-154 | A module that registers later never changes where an earlier packet belongs |
| `BusThread.RouteDecided` | src/Architecture/SDB/sdb_module.c:27-149 | For every message, by the entries of the table and the directory: an unknown command gets ECMDFAULT; a sender whose group is in no inspected slot of a list that does not begin with ANY gets EPERM; a name that no module has gets EBADMODID; else the first module of that name gets the message if its own group is listed, and if not the sender gets EPERM |
| `BusThread.RouteIsPermitted` | src/Architecture/SDB/sdb_module.c:48-154 | The checks in their order choose a module exactly when it is the first of its name and both groups are listed, slot by slot |
| `BusThread.CheckMessage` | src/Architecture/SDB/sdb_module.c:27-149 | The loops over groups and modules compute the route, with the error code of the first check that fails |
| `BusThread.GroupCheck` | src/Architecture/SDB/sdb_module.c:60-75 | A group list admits a group exactly if it begins with ANY or one of its inspected slots has the group |
| `BusThread.FindModule` | src/Architecture/SDB/sdb_module.c:112-126 | The first module registered under the name is found, or the end of the list |
| `BusThread.ModuleThread.ProcessMessage` | src/Architecture/SDB/sdb_module.c:27-154 | A refused message changes nothing but is answered with its error; a routed one enters the own queue and is to be written, if the size test admits it |
| `BusThread.ModuleThread.ProcessPayload` | src/Architecture/SDB/sdb_module.c:209-226 | A known payload command enters the own queue, an unknown one is answered with an error |
| `BusThread.ModuleThread.ProcessAnswer` | src/Architecture/SDB/sdb_module.c:279-295 | An answer takes its request out of the queue and goes back to where the request came from; an unexpected one is dropped |
| `BusThread.ModuleThread.ProcessSdb` | src/Architecture/SDB/sdb_module.c:228-265 | The mailbox is emptied; a request is queued and passed on, an answer is passed on exactly if some packet in the queue has its id, the first of which then leaves the queue |
| `BusThread.ModuleThread.ProcessCommand` | src/Architecture/SDB/sdb_module.c:296-316 | A command of the own client meets the fate its type, the table and the directory assign to it: queued, queued and to be written, or answered at once |
| `BusThread.ModuleThread.Receive` | src/Architecture/SDB/sdb_module.c:383-431 | The memory block of the receiver holds the image of the packet, or the write found the slot full, or it left the block, each exactly when the specification says so |
| `BusSystem.System.Join` | src/Architecture/SDB/sdb_module.c:489-560 | A set of threads on their own queues and memory blocks that stands in a state of the bus stands, with one more, in the state after a registration |
| `BusSystem.System.OnRequest` | src/Architecture/SDB/sdb_module.c:267-316 | What a thread does with a command of its client is the step of the bus: its queue and state move as said there, and no other thread is touched |
| `BusSystem.System.OnAnswer` | src/Architecture/SDB/sdb_module.c:267-295 | The same for an answer of its client |
| `BusSystem.System.OnMail` | src/Architecture/SDB/sdb_module.c:228-265 | The same for what it reads out of its memory block |
| `BusSystem.System.OnWrite` | src/Architecture/SDB/sdb_module.c:368-431 | The same for a write into the block of another thread or its own, with the outcomes written, full and overrun |
| `Mailbox.FitsWhenRoomy` | src/Architecture/SDB/sdb_module.c:379-421 | The copies behind each other all end inside the block if and only if id, structure, destination with terminator, arguments and data fit together |
| `Mailbox.Places` | src/Architecture/SDB/sdb_module.c:392-421 | Where everything stands in the block: id and structure, the destination with its terminator, the arguments and the data one behind the other, each pointer leading to its own |
| `Mailbox.ReadsBack` | src/Architecture/SDB/sdb_module.c:392-470 | What was written with room is read back as sent, up to the NUL of the destination, and no read leaves the block |
| `MailboxRegion.Region.Write` | src/Architecture/SDB/sdb_module.c:392-421 | For every packet whose pointers lead to what its counts say: the copies leave the id, the structure, the destination, arguments and data in the block, every pointer leading to its copy, or report that one of them would leave the block |
| `MailboxRegion.Region.Read` | src/Architecture/SDB/sdb_module.c:433-470 | The sender and fresh copies of destination, arguments and data come out, found by following the pointers in the block, and the slot is free |
| `Usb.RunKeeps` | src/Architecture/SDB/sdb_usb.c:12-165 | Over every interleaving of modules, writer and reader: each packet is in one place, both queues are in order of priority and age, only acceptable packets wait, only unacceptable ones are refused, and answers carry the id of their packet |
| `Usb.ExactlyOnePlace` | src/Architecture/SDB/sdb_usb.c:121-165 | Every packet that entered is, at any time, in exactly one of: send queue, writer, receive queue, answered, refused |
| `Usb.EntersAndLeaves` | src/Architecture/SDB/sdb_usb.c:145-165 | In every run a command enters with the module, urgency and packet it has, and the writer takes the most urgent and oldest one |
| `Usb.ResponseGoesToMostUrgent` | src/Architecture/SDB/sdb_usb.c:121-143 | An answer from the board goes to the most urgent waiting packet with its id, the oldest of those, and without one changes nothing |
| `Usb.UsbFrame` | src/Architecture/SDB/sdb_usb.c:12-74 | An accepted packet becomes six bytes and its data: five odd header bytes, the data, and an even byte that gives the id back |
| `Usb.UsbHeader` | src/Architecture/SDB/sdb_usb.c:44-60 | The first header byte gives the command and parameter codes back, the next two the low seven bits of the arguments, or zero without them, and the last two the upper and lower seven bits of the size |
| `Usb.BoardRefuses` | src/Architecture/SDB/sdb_usb.c:12-42 | Exactly these packets are not sent: of another type or without a row, with more than 250 bytes of data, with an id of 128 or more, with more than two arguments |
| `Usb.BoardBytesRead` | src/Architecture/SDB/sdb_usb.c:76-119 | What is made of any bytes from the board, by their positions |
| `Usb.BoardAnswerRead` | src/Architecture/SDB/sdb_usb.c:76-119 | A frame from the board is understood if and only if its data is below 128 bytes, and then the answer has the kind, the id and the data of the frame |
| `Usb.SizesAgree` | src/Architecture/SDB/sdb_usb.c:59-90 | The two length formulas agree exactly below 128 bytes |
| `Usb.SizesDiffer` | src/Architecture/SDB/sdb_usb.c:59-90 | The concrete failure: 128 bytes are read as 256 |
| `UsbThreads.Threads.WriteTurn` | src/Architecture/SDB/sdb_usb.c:145-165 | With something to send, the most urgent packet leaves the send queue and, if it could be converted, waits in the receive queue |
| `UsbThreads.Threads.ReadTurn` | src/Architecture/SDB/sdb_usb.c:121-143 | A valid response takes the first waiting packet with its id out of the receive queue |
| `PendingList.SyncSendReturns` | src/Architecture/Libraries/SDB/sdb.c:348-366 | From adding its id to its clean-up, among any other requests with ids not in flight: a synchronous send finds its entry, which is valid exactly if an answer with its id was delivered, holds a packet with that id, and is removed without disturbing any other |
| `PendingList.SyncSend` | src/Architecture/Libraries/SDB/sdb.c:348-366 | Through anything the other requests and the reader do, the entry holds the last answer delivered for its id |
| `PendingList.RunMatched` | src/Architecture/Libraries/SDB/sdb.c:53-169 | In every run of adds, deliveries and deletes a valid entry holds a packet with its own id |
| `PendingList.FreshRunDistinct` | src/Architecture/Libraries/SDB/sdb.c:53-117 | Requests made with ids not in flight keep all ids in the list different |
| `PendingList.DeleteOwn` | src/Architecture/Libraries/SDB/sdb.c:90-117 | With different ids, deleting one removes its entry and no other |
| `PendingList.DeliveryReaches` | src/Architecture/Libraries/SDB/sdb.c:152-169 | When ids do repeat, an answer reaches an entry exactly if no newer entry has its id |
| `LinkedPending.LinkedPending.AddPending` | src/Architecture/Libraries/SDB/sdb.c:69-88 | The new entry becomes the first of a well-formed list |
| `LinkedPending.LinkedPending.Get` | src/Architecture/Libraries/SDB/sdb.c:53-67 | The newest entry with the id, or nothing |
| `LinkedPending.LinkedPending.DeliverAnswer` | src/Architecture/Libraries/SDB/sdb.c:152-169 | The newest entry with the id becomes valid with the packet; no other entry and no link changes |
| `LinkedPending.LinkedPending.DeletePending` | src/Architecture/Libraries/SDB/sdb.c:90-117 | The newest entry with the id is unlinked, at either end or in the middle, and the others stay in order |
| `ShedSearch.Scheduler.Solve` | src/Architecture/Scheduler/shed.c:156-191 | The search visits every combination but the one of zeros exactly once, bounds every candidate, and if it improves on the initial maximum it leaves the first candidate, in counting order, that attains the greatest objective |
| `ShedSearch.AllVisited` | src/Architecture/Scheduler/shed.c:156-191 | A list of as many successors as there are combinations but one holds each of them once |
| `ShedSearch.NextCombination` | src/Architecture/Scheduler/shed.c:79-92 | The in-place odometer step is the successor in mixed radix |
| `ShedSearch.NumberOfCombinations` | src/Architecture/Scheduler/shed.c:95-103 | The number of combinations is the product of the radices |
| `ShedObjective.ObjectiveIsWorth` | src/Architecture/Scheduler/shed.c:11-61 | What the search maximises is the sum of the chosen merits, times ten times the number of tasks that some chosen solution does over all tasks, rounded down, over the number of pairs of a satellite and a task that at least two do, or one |
| `ShedObjective.TicIs` | src/Architecture/Scheduler/shed.c:38-48 | The factor is the whole number t with t * tasks <= 10 * done < (t + 1) * tasks, done being the size of the set of tasks that some satellite does |
| `ShedObjective.OccurrencesAre` | src/Architecture/Scheduler/shed.c:11-49 | The occurrences are the size of the set of pairs of a satellite and a task it does, for tasks that at least two do, and one if it is empty |
| `ShedSearch.TotalOccurrences` | src/Architecture/Scheduler/shed.c:11-49 | The loops over satellites and tasks compute both, as sizes of those sets |
| `ShedSearch.TotalReward` | src/Architecture/Scheduler/shed.c:51-61 | The merit of the chosen solutions times the current factor |
| `ShedSearch.CheckSolution` | src/Architecture/Scheduler/shed.c:63-74 | Accepted exactly if no chosen solution was deleted |
| `ShedSearch.CopySolution` | src/Architecture/Scheduler/shed.c:106-112 | The best combination is copied cell by cell |
| `Shed.SuccessorCounts` | src/Architecture/Scheduler/shed.c:79-92 | The successor stands for the next number, and for zero after the last |
| `Shed.ValueInjective` | src/Architecture/Scheduler/shed.c:79-92 | Different combinations stand for different numbers, so none is visited twice |
| `Shed.ValueInRange` | src/Architecture/Scheduler/shed.c:95-103 | Every combination stands for a number below the number of combinations, so none is left out |
| `ShedPruning.PruningPreservesBest` | src/Architecture/Scheduler/shed.c:127-171 | With each list of merits positive and sorted, a value is the best objective after deleting duplicates if and only if it was before |
| `ShedPruning.PruningKeepsGood` | src/Architecture/Scheduler/shed.c:127-152 | Every combination has a counterpart with the same tasks that survives the deletion and is at least as good |
| `ShedPruning.PruningAddsNothing` | src/Architecture/Scheduler/shed.c:63-152 | What is accepted after the deletion was there before and is worth the same |
| `ShedPruning.SameMaximum` | src/Architecture/Scheduler/shed.c:156-191 | Two complete searches from the same initial maximum, with and without deletion, end with the same maximum |
| `ShedPruning.SortedAccepted` | src/Architecture/Scheduler/shed.c:63-74 | Before the deletion every combination is accepted, so the best accepted is the best of all |
| `ShedPruning.PrunedExactly` | src/Architecture/Scheduler/shed.c:140-171 | A solution loses its merit exactly if an earlier one of its satellite has the same tasks, and nothing else changes, so no two that keep a merit have the same tasks |
| `ShedPruning.Prune` | src/Architecture/Scheduler/shed.c:166-171 | The loop over the solutions of a satellite zeroes the merit of exactly those whose tasks an earlier one has |
| `ShedPruning.DeleteDuplicates` | src/Architecture/Scheduler/shed.c:140-152 | Later solutions with the same tasks as the given one lose their merit, the rest stays |
| `ShedPruning.CompareSolutions` | src/Architecture/Scheduler/shed.c:127-136 | Equal exactly if all tasks agree |
| `ShedPruning.SortDescending` | src/Architecture/Scheduler/shed_local.c:42-50 | The bubble sort leaves a descending permutation |
| `ShedPruning.GenerateSolutions` | src/Architecture/Scheduler/shed_local.c:30-55 | The generated solutions are numbered, positive and sorted, their merits a permutation of those drawn |
| `Mcsg.SplitFindsRow` | src/Architecture/Libraries/MCS/mcs.c:466-479 | With fewer than 65536 commands of each type, every enumeration value splits into the type and index of the own table row of its command |
| `Mcsg.EnumsDistinct` | src/Architecture/MCS/mcsg.c:188-341 | No two commands share an enumeration value |
| `Mcsg.TablesCover` | src/Architecture/MCS/mcsg.c:343-409 | The three table sizes add up to the number of commands |
| `Mcsg.TablesByName` | src/Architecture/MCS/mcsg.c:188-341 | A command is in the table of states or payloads exactly if its type is named so, and else among the messages |
| `Mcsg.EnumNames` | src/Architecture/MCS/mcsg.c:188-341 | The name in the enumeration: MCS, the type and the name, in capital letters |
| `Mcsg.JavaNameIsUpper` | src/Architecture/MCS/mcsg.c:416-445 | The Java name of a command is its JSON name with the letters a to z made capital and all else unchanged |
| `Mcsg.RecombinesMessagesOnly` | src/Architecture/Include/mcs.h:105-108 | Putting type and index together again gives the enumeration value back if and only if the command is a message |
| `Mcsg.StateLost` | src/Architecture/Include/mcs.h:105-108 | The concrete failure: the first state command comes back as 4 |
| `Mcsg.CommandsReader` | src/Architecture/MCS/mcsg.c:188-341 | The loop that appends to four lists yields the commands of each type in order, and for each command its name and value |
| `Mcsg.TableSize` | src/Architecture/MCS/mcsg.c:343-409 | The number printed after a table is its length |
| `Mcsg.JavaName` | src/Architecture/MCS/mcsg.c:416-445 | What follows the second underscore is printed |
| `Mcsg.StrToUpper` | src/Architecture/MCS/mcsg.c:10-21 | The letters a to z become capital, all other characters and the length stay |
| `Csv.FileRoundTrip` | src/Architecture/Libraries/app_ctrl/sqlite/shell.c:2146-2206 | Any number of written rows, followed by anything, is read back row by row and field by field |
| `Csv.RowRoundTrip` | src/Architecture/Libraries/app_ctrl/sqlite/shell.c:972-988 | A row of NUL-free fields with any quotes, separators and line breaks in them is read back, with a line feed as row separator, up to what follows it |
| `Csv.FieldRoundTrip` | src/Architecture/Libraries/app_ctrl/sqlite/shell.c:743-797 | One written field is read back together with the character that ended it |
| `Csv.FieldAtEnd` | src/Architecture/Libraries/app_ctrl/sqlite/shell.c:2146-2206 | A field at the very end of the file, without a line break, is read back as well |
| `Csv.Unquoted` | src/Architecture/Libraries/app_ctrl/sqlite/shell.c:743-797 | A field is written without quotes exactly if it is not empty and has only visible ASCII characters, none of them a quote, an apostrophe or the separator |
| `Csv.OutputCsv` | src/Architecture/Libraries/app_ctrl/sqlite/shell.c:768-797 | A field is written as it is if it is not empty and has only harmless characters, else in quotes with its quotes doubled |
| `CsvImport.ImportCtx.ReadOneField` | src/Architecture/Libraries/app_ctrl/sqlite/shell.c:2146-2206 | The character loops over the growing buffer return the field, the ending character and the position of the specification; no field is returned at the end of the input, and neither exactly when the buffer does not exist yet and the field has nothing to append to it |
| `CsvImport.ImportCtx.AppendChar` | src/Architecture/Libraries/app_ctrl/sqlite/shell.c:2121-2131 | One byte is appended, in a larger buffer when the old one is full, and the bytes before it stay |

## Left out

- Liveness of the bus and freedom from deadlock between threads: the source gives no such guarantee, so only safety is proved.
- Thread creation and cancellation, `select`, timeouts, signals, locks as such: steps are atomic between waiting points.
- Registration and handshake: one step of the bus, which is refused once all 20 slots are taken; the source does not check the number of slots.
- What the bus does with messages for itself (start, stop and dump of the event log) and with state values: answered on the spot, no trace in the bus state; the fall-through after the stop message is therefore in no claim about replies.
- An `@` message without any destination: the reader never produces one; the model treats it as the empty name.
- Spurious wake-ups and the wait itself in `sdb_send_sync`: the claim is about what the entry holds whenever it is looked at.
- UsbThreads.Threads.WriteTurn: requires something in the send queue, and the label `PopNext` of the pipeline is enabled only then, because on an empty queue `sdb_queue_pop_block` dereferences the null it loaded before waiting (sdb_queue.c:147-154); what the writer does after that is not defined.
- The callback array of the client library: its element count is not lowered when a callback is unregistered, so it does not refine a set.
- The push that would connect a module to the USB queue: it is commented out in the source, so the bus and the USB pipeline are separate systems here.
- USB lengths of 128 bytes and more, beyond showing that the two ends disagree about them.
- Text formatting and buffer growth of the event dump: the model returns the events.
- Numbers that are not 32-bit integers in the JSON printer, rounding of `double`, `pow` for large exponents; the parser computes over `real`.
- The `child`, `next` and `prev` pointers of cJSON items: the tree is a value with sequences of children, so aliasing between items is not captured.
- JSON allocation failure and hooks, and `cJSON_Duplicate` and the tree editing functions.
- JsonMinify.MinifyInPlace: requires a text that ends outside of literals and block comments; on every other one the source leaves the buffer (`JsonMinify.MinifyStaysInside`), and what it does there is not defined.
- What happens after a write past the end of a mailbox, a string buffer or a text: the model stops with an overrun.
- MailboxRegion.Region.Write: requires pointers that lead to as many bytes as the counts say, which the reader establishes (`McsFraming.ReaderBacks`).
- MailboxRegion.Region.Read: requires that what it reads lies in the block, which holds of every filled slot in every run (`BusMailbox.RunBoxes`, `BusMailbox.SlotReads`).
- BusSystem.System.OnMail: requires the state of the mailboxes that `BusMailbox.RunBoxes` proves for every run.
- BusSystem.System.OnWrite: requires the same.
- JsonStandard.StandardAccepted: leaves out the escape of NUL and escapes of single surrogates, which the grammar of the RFC derives and the parser drops; `JsonDerived.ParsesExactly` has them.
- The order of the structure's fields and its padding in memory: its size is a parameter.
- Float rounding, the counter of duplicates, random generation and printing in the scheduler.
- The four linked lists of the generator: sequences here.
- Field walks of the three translators of the generator and the text of origin groups: they depend on positions in the JSON file.
- Mcsg.CommandsReader: requires at least one command, because the source dereferences the first one; `Mcsg.TableSize` likewise, for its table.
- Mcsg.TableSize: requires a non-empty table, as above.
- CSV null values, separators of more than one character, line counting, messages and interrupts.
- Arduino radio code, application control, unzip, satellite tracker, Android classes, the rest of the SQLite shell.
