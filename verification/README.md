# Verified model of the camera-platform core

This project models the parts of the repository on which everything else rests, and proves what they promise:

* **The JSON library** (`work/cjson/src/cJSON.c`). Every REST body and every output message passes through it. The
  files `Bytes`, `Utf8`, `Literals`, `JsonText` and `JsonGrammar` say what the text of a value is and what the parser
  accepts; `RoundTrip`, `WellFormedText`, `Minifier` and `MinifiedMeaning` relate the two. `Escapes`, `Numerals`,
  `Syntax`, `Layout` and `Segments` say once more, without any of these functions, what an escape, a number, a document,
  a layout and a comment are, and prove that the functions mean exactly that. `Parser`, `StringParser`,
  `Printer`, `StringPrinter`, `BufferedPrinter`, `Growth`, `Minifier`, `Items` and `Trees` are the C algorithms
  themselves, on buffers and on a heap of doubly linked items, proved against those functions. `Documents` puts them
  together.
* **The message-key cache and the process pool** (`src/pids.cpp`): `KeyCache`, `ProcPool`.
* **The master's attachment protocol** (`src/master.cpp`): `MasterProtocol`, `MasterProgress`.
* **The live-task beat machine** (`src/rtsp/rtsp.cpp`) and **the shared-memory layout** (`src/shm.cpp`): `LiveTask`,
  `ShmLayout`.

A C string is a sequence of the characters 1 to 255; a pointer into it is an index, and reading the NUL is allowed while
reading past it is not. A `char` buffer is an array, so every write is inside it. Allocation is a value that is handed
from call to call: the set of cells handed out and not yet given back. Freeing needs a live cell, so nothing is freed
twice, and what a tree owns is stated as a set of cells.

Concurrency is modelled as interleaved steps. A read of a condition or a write of a field in the C code is a step of its
own where another thread can come in between, and a critical section that nothing can enter is one step; the few places
where several accesses are taken together are named under "Left out". The callbacks themselves are methods on mutable
records. What they compute is proved to be what their steps add up to when nothing comes in between.

## What turned out differently from what the code seems to promise

* `cJSON_Duplicate` allocates the name of every copied node but keeps the flag that says that the name is a constant of
  the caller, so `cJSON_Delete` never frees it. Deleting the copy gives everything back exactly when no node of the
  source has such a name (`Trees.DuplicateThenDelete`, `Trees.ConstantNameLeaks`).
* `pow2gt` leaves the range of `int` exactly above 2^30 (`Growth.Pow2gtFits`); the buffered printer is therefore proved
  for texts below that size.
* With a print buffer, `print_object` clobbers the variable in which it keeps the start of its output. For an object
  with members in the formatted layout the returned position is the depth, in all other cases the start
  (`BufferedPrinter.PrintValue`). `cJSON_PrintBuffered` is not affected, because there both are 0
  (`BufferedPrinter.PrintBuffered`).
* Deleting the key 0 consumes a cell of the key cache (`KeyCache.DeletingZero`, `KeyCache.ExhaustedByZeros`). No key that
  is handed out is 0.
* `conditionByPidOps` passes over full processes, so an object gets a second home exactly when a full process has it and
  a place is found (`ProcPool.SecondHome`, `ProcPool.SecondHomeExample`).
* The grace period of 120 s can be missed. The manager reads the state of a slave first and takes the slave away from the
  object later; when it has decided to do so before the outage was recorded (because the slave was not initialised or
  had too much load), the object loses its slave in the very second in which the outage begins
  (`MasterProtocol.EarlyLoss`). From any moment of a young outage on an early loss is possible exactly when that decision
  has been made (`MasterProtocol.GraceExactly`), and then it is certain (`MasterProtocol.DecisionIsFinal`); in all other
  cases the object keeps its slave, attached or not (`MasterProtocol.GracePeriod`).
* The two threads of the master can wait for each other for ever: the poller sweeps the objects while it holds the slave
  lock, and the manager chooses a slave while it holds the object lock. The master is stuck exactly in that position
  (`MasterProgress.StuckExactly`, `MasterProgress.StuckForever`), and it is reached when a slave stops answering while
  the manager looks for a slave for an object that has none (`MasterProgress.StuckExample`).
* A slave that answers after an outage but reports itself as initialised stays offline
  (`MasterProtocol.OutageEndsOnlyUninitialised`).
* The start/stop protocol of a live stream depends on the stop waiting for a running frame callback
  (`LiveTask.AlwaysAlternates`, `LiveTask.WithoutJoining`).
* A wanted stream can be stopped in the very second in which a frame has been stored: the task beat reads the age of the
  last frame, a callback that is already under way stores its own, and then the stop is called
  (`LiveTask.StoppedWithFreshFrame`). What holds is a statement about the decision: it is made exactly when everything
  that has been stored is more than 30 s old (`LiveTask.RestartsOnlyAfterSilence`, `LiveTask.StopsByDecision`), and it is
  right about the frames that have arrived, too, exactly when no fresh one is being handled at that moment
  (`LiveTask.RightAboutArrivals`).
* Minifying keeps the meaning of every document that the parser accepts up to its NUL
  (`MinifiedMeaning.MinifyKeepsMeaning`), but not of a text of which it accepts only a beginning
  (`MinifiedMeaning.MeaningWithoutNul`).
* On a pure master the pools are laid out although the segment was sized without them; they lie outside it unless they
  fit into the slack (`ShmLayout.InsideOnMaster`, `ShmLayout.OutsideOnMaster`).
* The size of a pool is an `int` product. When it overflows into the negative, pools start before the segment
  (`ShmLayout.OutsideOnOverflow`); an overflow to a size that is not negative does no harm
  (`ShmLayout.HarmlessOverflow`). The layout is sound exactly when no size becomes negative and, on a pure master, the
  pools fit into the slack (`ShmLayout.SoundExactly`).

## Model

| member | source | states |
|---|---|---|
| Utf8.PairRoundTrip | work/cjson/src/cJSON.c:220-226 | the arithmetic that combines two surrogates inverts section 2.2 of RFC 2781, for every code point above the basic plane, and the first surrogate has the upper ten bits |
| Utf8.EncodeRoundTrip | work/cjson/src/cJSON.c:229-236 | the bytes stored for a code point decode to it by section 3 of RFC 3629, and no shorter prefix of them decodes to anything |
| Utf8.EncodeBytes | work/cjson/src/cJSON.c:229-236 | one to four bytes by the size of the code point, most significant bits first, behind the marker of the length |
| Utf8.DecodeRoundTrip | work/cjson/src/cJSON.c:229-236 | every sequence that is well formed by section 3 of RFC 3629 is what is stored for the code point it stands for |
| Utf8.BitsAreArithmetic | work/cjson/src/cJSON.c:226-236 | the masks and shifts of the C code are the divisions and remainders used here |
| Literals.DecodedIsRfc8259 | work/cjson/src/cJSON.c:204-243 | decoding a literal with complete escapes is: tokenise as in section 7 of RFC 8259, pair surrogates, drop U+0000 and what is not a scalar value, encode as UTF-8 |
| Literals.DecodedFits | work/cjson/src/cJSON.c:197-204 | the second pass stores at most as many characters as the first one counted, for every literal with complete escapes |
| Literals.StepRoundTrip | work/cjson/src/cJSON.c:286-304 | the escape written for any character is read back as that character and consumed entirely |
| Literals.LiteralRoundTrip | work/cjson/src/cJSON.c:252-307 | for every NUL-free string and whatever follows, reading its printed literal gives the string and stops just behind the closing quote |
| Literals.LiteralIsInjective | work/cjson/src/cJSON.c:252-307 | different strings have different literals |
| Escapes.Hex4Reads | work/cjson/src/cJSON.c:177-188 | four hexadecimal digits, the most significant first and each in upper or lower case, are read as their number, whatever follows |
| Escapes.Hex4Rejects | work/cjson/src/cJSON.c:180-186 | with anything else among the first four characters the result is 0 |
| Escapes.LiteralMeans | work/cjson/src/cJSON.c:202-249 | every literal, written as plain characters, two-character escapes and unicode escapes, is decoded to what the table in section 7 of RFC 8259 and the two surrogate formulas say, and read up to behind its quote |
| Escapes.LiteralCounts | work/cjson/src/cJSON.c:197 | the first pass counts five for a unicode escape and one for everything else |
| Escapes.LiteralSplit | work/cjson/src/cJSON.c:197-241 | every text whose escapes are complete begins with a literal of that form |
| Escapes.ScalarEscape | work/cjson/src/cJSON.c:214-238 | a scalar value below U+10000 is decoded to its UTF-8 from the escape with its four digits |
| Escapes.SurrogateEscapes | work/cjson/src/cJSON.c:220-238 | a scalar value above is decoded to its UTF-8 from the escapes with its two surrogates |
| Escapes.EscapeForms | work/cjson/src/cJSON.c:286-304 | which of the forms each of the 255 characters is written in |
| StringPrinter.MeasureString | work/cjson/src/cJSON.c:278 | the counting loop gives the length of the escaped string, whatever mixture of short and long escapes it contains |
| StringPrinter.NeedsEscape | work/cjson/src/cJSON.c:256 | the flag is set exactly when escaping changes the string |
| StringPrinter.ReserveString | work/cjson/src/cJSON.c:256-282 | both branches reserve exactly the bytes of the literal and its NUL |
| StringPrinter.FillString | work/cjson/src/cJSON.c:263-306 | the reserved bytes are filled exactly by the literal and its NUL, and nothing outside them changes |
| StringParser.ParseHex4 | work/cjson/src/cJSON.c:177-188 | the value of four hexadecimal digits or 0, without reading behind the first character that is none |
| StringParser.Measure | work/cjson/src/cJSON.c:197 | the first loop counts what the bound on the output is stated in |
| StringParser.PutUtf8 | work/cjson/src/cJSON.c:229-238 | storing from the last byte to the first leaves the encoding of the code point behind what was written before |
| StringParser.SecondHalf | work/cjson/src/cJSON.c:220-227 | a high surrogate is combined with a low one, or both are dropped, and as much is consumed as in the specification |
| StringParser.DecodeUnicode | work/cjson/src/cJSON.c:214-239 | one unicode escape, possibly with its second half, gives the bytes of the specification |
| StringParser.Decode | work/cjson/src/cJSON.c:203-246 | the second loop fills the buffer of the counted length with the decoded string and its NUL, and stops at the closing quote or the NUL |
| StringParser.ParseString | work/cjson/src/cJSON.c:192-249 | fails exactly without an opening quote; otherwise a new buffer holds the decoded string and the position is behind the literal |
| RoundTrip.NumberRoundTrip | work/cjson/src/cJSON.c:96-115 | the decimal text of every 32-bit integer is read back as that integer and nothing behind it is consumed |
| Numerals.IntTextIsCanonical | work/cjson/src/cJSON.c:151-161 | a minus exactly for negative numbers, then a single zero or digits that do not start with one, worth the absolute value by place value |
| Numerals.NumeralIsRead | work/cjson/src/cJSON.c:96-115 | sign, zero, digits, fraction, mark and exponent, each optional, before anything that cannot continue them: the mantissa is the digits before and behind the point by place value, and the exponent is lowered by the number of the latter |
| Numerals.NumeralOf | work/cjson/src/cJSON.c:96-115 | every text that starts with a minus or a digit starts with such a number, and nothing behind it can continue it |
| RoundTrip.ValueRoundTrip | work/cjson/src/cJSON.c:357-369 | for every printable value, depth, layout and rest that cannot continue a number, parsing the printed text gives the value and the rest |
| RoundTrip.DocumentRoundTrip | work/cjson/src/cJSON.c:323-343 | parsing the text of the formatted or unformatted printer, with or without required NUL, gives an equal tree and consumes everything |
| RoundTrip.TextIsInjective | work/cjson/src/cJSON.c:342-343 | different values never print to the same text, in whatever layouts |
| Layout.ValueIsLaidOut | work/cjson/src/cJSON.c:372-403 | the formatted text is the unformatted one with a line for each member, tabs by the number of open brackets and braces, a tab behind each colon and a blank behind each comma of an array, at every depth and whatever follows |
| Layout.FormattedIsPretty | work/cjson/src/cJSON.c:342-343 | a pretty-printer that knows nothing but the unformatted text gives the formatted one |
| WellFormedText.ValueSound | work/cjson/src/cJSON.c:357-369 | on a text whose literals have complete escapes the parser never leaves its buffers, and what it leaves unread is again such a text |
| WellFormedText.DocumentSound | work/cjson/src/cJSON.c:323-336 | the same for whole documents: failure or a tree, never an overrun |
| Syntax.FormParses | work/cjson/src/cJSON.c:357-369 | every value of a grammar with white space, numbers, literals, arrays and objects is parsed to the value that the grammar says, before anything that cannot continue it |
| Syntax.FormOf | work/cjson/src/cJSON.c:357-369 | every value that is parsed is written by the grammar |
| Syntax.ReadsExactly | work/cjson/src/cJSON.c:323-336 | without the required NUL a document is read as a value with a rest if and only if the grammar has white space and that value in front of the rest |
| Syntax.AcceptsExactly | work/cjson/src/cJSON.c:323-336 | with the required NUL a document is accepted with a value if and only if it is white space, a text of that value and white space |
| Minifier.ValueShrinks | work/cjson/src/cJSON.c:735-750 | minifying a value printed in either layout at any depth gives its unformatted text, whatever follows |
| Minifier.MinifyPrinted | work/cjson/src/cJSON.c:735-750 | minifying formatted output gives exactly the unformatted output |
| Segments.MinifiesExactly | work/cjson/src/cJSON.c:735-750 | every text, comments included: it is minified to the other one if and only if it consists of blanks, line comments, block comments, closed literals and single other characters, the last two of which make up the other one |
| Minifier.CopyLiteral | work/cjson/src/cJSON.c:746 | a literal is moved unchanged to the front, overlapping itself, and its escaped quotes do not end it |
| Minifier.MinifyInPlace | work/cjson/src/cJSON.c:735-750 | in place, with the write cursor never ahead of the read cursor: the buffer holds the minified text, and what is behind it is untouched |
| MinifiedMeaning.LiteralIsLocal | work/cjson/src/cJSON.c:192-249 | what a closed literal decodes to, and where it ends, does not depend on what follows it |
| MinifiedMeaning.MinifyKeepsMeaning | work/cjson/src/cJSON.c:735-750 | for every document, printed or not, that minifying gets through and that parses up to its NUL: the minified text parses to the same value |
| MinifiedMeaning.MeaningWithoutNul | work/cjson/src/cJSON.c:333-334 | without the required NUL this fails: two numbers that a blank separates become one |
| Growth.Pow2gtIsLeastPower | work/cjson/src/cJSON.c:117 | smearing the bits gives the least power of two that is not below the argument |
| Growth.Pow2gtFits | work/cjson/src/cJSON.c:117 | that power fits an int exactly up to 2^30 |
| Printer.IntLength | work/cjson/src/cJSON.c:157-162 | a 32-bit integer never needs more than the 21 bytes reserved for it |
| Printer.PrintString | work/cjson/src/cJSON.c:252-307 | a new buffer of exactly the literal and its NUL |
| Printer.PrintNumber | work/cjson/src/cJSON.c:147-162 | the decimal text of every 32-bit integer in 21 bytes, and zero in two |
| Printer.ConcatIsItems | work/cjson/src/cJSON.c:501-506 | the entries composed one after the other are the text of the array |
| Printer.ConcatIsMembers | work/cjson/src/cJSON.c:642-651 | the names and entries composed one after the other are the text of the object |
| Printer.PrintEntries | work/cjson/src/cJSON.c:475-483 | walking the linked children prints each of them into a buffer of its own, and the computed length is five and the entries with their separators, and one more separator |
| Printer.PrintMembers | work/cjson/src/cJSON.c:618-626 | walking the linked children prints names and values, and the computed length is seven and the indentation and the members, and one more comma |
| Printer.ComposeArray | work/cjson/src/cJSON.c:498-508 | writing into the allocated length gives the text of the array |
| Printer.ComposeObject | work/cjson/src/cJSON.c:640-655 | writing into the allocated length gives the text of the object |
| Printer.PrintArray | work/cjson/src/cJSON.c:434-511 | on a heap of linked items the unbuffered array printer stays inside its precomputed buffer, whose exact size is given, and gives the text, for every depth and layout |
| Printer.PrintObject | work/cjson/src/cJSON.c:550-658 | on a heap of linked items the unbuffered object printer gives the text, the empty object at every depth included; its precomputed buffer is six bytes larger than the text of an object with members |
| Printer.PrintValue | work/cjson/src/cJSON.c:372-403 | for every linked tree, with references followed, the unbuffered printer gives the text of the value of the tree and changes nothing |
| BufferedPrinter.PrintBuffer.Ensure | work/cjson/src/cJSON.c:121-136 | afterwards the needed bytes may be written behind the offset, through reallocation to the next power of two exactly when necessary, and nothing printed is lost; needed and offset together stay within 2^30 or within a buffer that was larger from the beginning |
| BufferedPrinter.PrintBuffer.Update | work/cjson/src/cJSON.c:138-144 | the offset moves to the end of what has been printed, wherever inside it it stood |
| BufferedPrinter.PrintItems | work/cjson/src/cJSON.c:456-466 | the loop of the buffered array printer along the linked children, through any number of regrowths |
| BufferedPrinter.PrintMembers | work/cjson/src/cJSON.c:573-602 | the loop of the buffered object printer along the linked children, through any number of regrowths |
| BufferedPrinter.PrintValue | work/cjson/src/cJSON.c:376-388 | for every linked tree: what was printed before is kept and the text of the value is behind it; the returned position is the start, except for a formatted object with members |
| BufferedPrinter.PrintBuffered | work/cjson/src/cJSON.c:345-353 | for every positive prebuffer and both layouts: exactly the text of the unbuffered printer, if it fits with its slack into 2^30 bytes or into the prebuffer |
| Items.ChainIsAcyclic | work/cjson/src/cJSON.c:666 | a consistently linked child list contains no node twice |
| Items.ChainIsUnique | work/cjson/src/cJSON.c:661-662 | the pointers determine the sequence of items |
| Items.GetArrayItem | work/cjson/src/cJSON.c:662 | the item at the index, the first for a negative one, null behind the end |
| Items.GetArraySize | work/cjson/src/cJSON.c:661 | the number of items |
| Items.AddItemToArray | work/cjson/src/cJSON.c:671 | the list grows by the item at its end, and null changes nothing |
| Items.InsertItemInArray | work/cjson/src/cJSON.c:684-685 | sequence insertion at the clamped index with all links consistent |
| Items.InsertedWhere | work/cjson/src/cJSON.c:684-685 | insertion is in front of the item with that index, at the front for a negative one, at the end for one behind it |
| Items.DetachItemFromArray | work/cjson/src/cJSON.c:677-678 | sequence removal at the clamped index; the detached item belongs to no list |
| Items.RemovedWhere | work/cjson/src/cJSON.c:677-678 | removal is of the item with that index, of the first for a negative one, of none behind the end |
| Items.Relink | work/cjson/src/cJSON.c:686-688 | sequence update at the clamped index; the old item belongs to no list |
| Items.UpdatedWhere | work/cjson/src/cJSON.c:686-688 | replacement is of the item with that index, of the first for a negative one, of none behind the end |
| Trees.Delete | work/cjson/src/cJSON.c:81-93 | every cell the forest owns is freed exactly once and nothing else, in particular nothing below a reference |
| Trees.CreateReference | work/cjson/src/cJSON.c:668 | a new node that shares children and value, has no name and belongs to no list |
| Trees.ReferenceThenDelete | work/cjson/src/cJSON.c:87-90 | deleting a reference frees its node and nothing of what it shares |
| Trees.DuplicateList | work/cjson/src/cJSON.c:722-731 | the walk along the children: the copies are linked in order and equal, the source is as it was |
| Trees.Duplicate | work/cjson/src/cJSON.c:708-733 | an equal tree of new nodes that owns everything it reaches even when the source holds references, together with the names that its flags disown |
| Trees.DuplicateThenDelete | work/cjson/src/cJSON.c:717-719 | copying and deleting the copy is neutral exactly when no node has a constant-flagged name |
| Trees.ConstantNameLeaks | work/cjson/src/cJSON.c:673 | an item named as cJSON_AddItemToObjectCS does is one for which it is not |
| Trees.DeleteItemFromArray | work/cjson/src/cJSON.c:679 | sequence removal, and exactly the cells of the removed tree are freed |
| Trees.ReplaceItemInArray | work/cjson/src/cJSON.c:686-688 | sequence update, and exactly the cells of the replaced tree are freed; nothing happens behind the end |
| Parser.Skip | work/cjson/src/cJSON.c:320 | the loop computes the skipping of the grammar and stops at the NUL |
| Parser.ParseNumber | work/cjson/src/cJSON.c:96-115 | sign, zero, digits, fraction and exponent as in the grammar, with the exact decimal value |
| Parser.ParseItems | work/cjson/src/cJSON.c:415-428 | the loop of parse_array builds the list of the items it has read, linked and owned once, also when it fails in the middle |
| Parser.ParseMembers | work/cjson/src/cJSON.c:523-543 | the same for parse_object, with the name moved out of the value field before the colon is looked for |
| Parser.ParseArray | work/cjson/src/cJSON.c:406-431 | succeeds exactly when the grammar does, with its value and end position |
| Parser.ParseObject | work/cjson/src/cJSON.c:514-547 | the same for objects |
| Parser.ParseValue | work/cjson/src/cJSON.c:357-369 | the recursive descent terminates, agrees with the grammar, moves strictly forward, and accounts for every cell it allocates |
| Parser.ParseWithOpts | work/cjson/src/cJSON.c:323-337 | a tree that owns everything that was allocated, equal to what the grammar reads, or null and nothing left allocated |
| Documents.Transmit | work/cjson/src/cJSON.c:323-343 | printing a heap tree in either layout, minifying in place and parsing give a new heap tree with the same value that owns exactly what was allocated |
| Documents.MinifyThenParse | work/cjson/src/cJSON.c:735-750 | minifying a received document in its buffer and parsing it gives a heap tree with the value of the document as it was |
| KeyCache.GetMsgKey | src/pids.cpp:87-123 | the nested loops give the smallest key that is not in the cache to the first cell that is freed or unused; -1 exactly when no cell is unused or no key is left, and then nothing changes |
| KeyCache.DelMsgKey | src/pids.cpp:125-141 | for every key and every cache: the first cell that holds the key is freed unless an unused cell comes before it, and nothing else changes |
| KeyCache.GetAdds | src/pids.cpp:94-120 | the invariant is kept; the smallest key that is not live is added, and -1 is answered exactly when all are live |
| KeyCache.SlotFacts | src/pids.cpp:105-116 | the key goes to the lowest freed cell, or else to the end of the used prefix |
| KeyCache.DelRemoves | src/pids.cpp:131-138 | the invariant is kept and exactly the key leaves the live set |
| KeyCache.NeverRunsOutEarly | src/pids.cpp:94-138 | over every run the last cell stays 0, the main key is never live, and a request fails exactly when all max-1 keys are live |
| KeyCache.RefinesSet | src/pids.cpp:87-141 | every step of every run is a step on the set of live keys |
| KeyCache.DeletingZero | src/pids.cpp:131-138 | deleting the key 0 frees an unused cell; the invariant survives exactly when another one is left |
| KeyCache.ExhaustedByZeros | src/pids.cpp:96-118 | without any 0 left a request fails although no key is live |
| ProcPool.LoadMeasuresRoom | src/pids.cpp:380 | the truncated load is below 100 exactly when a place is free |
| ProcPool.PlaceKeepsValid | src/pids.cpp:485-533 | placing keeps every queue free of repetitions and within taskMax, with the load it computes |
| ProcPool.PlaceExactly | src/pids.cpp:485-533 | the first process with room that has the object, else the first with room, else a new one if the load of the slave is below 90, else none; what happens to the pool in each case |
| ProcPool.PlacedIn | src/pids.cpp:505-532 | the returned process is of the kind asked for and has the object exactly when it is ready |
| ProcPool.DelKeepsValid | src/pids.cpp:386-400 | removing an object removes exactly it |
| ProcPool.DelRemovesFirst | src/pids.cpp:386-400 | the first entry with the id goes and the order of the others stays |
| ProcPool.AlwaysValid | src/pids.cpp:356-400 | the pool invariant in every state of every sequence of placements, removals, start-ups and exits |
| ProcPool.SecondHome | src/pids.cpp:259-264 | an object gets into a second process exactly when a full one has it and a place is found |
| ProcPool.SecondHomeExample | src/pids.cpp:259-264 | two placements that end with an object in two processes |
| Pids.PutObj2PidQue | src/pids.cpp:356-384 | the queue, the load and the number of places afterwards, and failure exactly when the worker has not become ready |
| Pids.DelObjFromPidQue | src/pids.cpp:386-400 | the queue without the first entry of the id, in its order, and the load that belongs to it |
| Pids.SearchHolder | src/pids.cpp:248-274 | the first process of the kind that is below a load of 100 and has the object, or none if there is none |
| Pids.SearchRoom | src/pids.cpp:276-294 | the first process of the kind that is below a load of 100, or none if there is none |
| Pids.GetEmptyProc | src/pids.cpp:485-533 | the two searches, the fork and the placement on the queue of records |
| MasterProtocol.LowestIsLowest | src/master.cpp:686-702 | folding the callback over the queue finds the first of the eligible slaves with the lowest load |
| MasterProtocol.StepKeepsInv | src/master.cpp:588-664 | every step of the poller, the manager, the clock and the REST thread keeps the invariant |
| MasterProtocol.AlwaysSafe | src/master.cpp:666-684 | in every interleaving an attached object has an initialised slave that is not offline, unless its sweep is pending, and no slave is online and offline outside a poll step |
| MasterProtocol.SlaveChangesThroughNone | src/master.cpp:741-775 | an object changes its slave only by way of having none |
| MasterProtocol.GracePeriod | src/master.cpp:717-768 | an object that belongs to the slave during an outage, attached or not, keeps it for 120 s unless the outage ends, provided that the manager has not already decided to take it away |
| MasterProtocol.GraceExactly | src/master.cpp:717-768 | at every moment of an outage younger than 120 s: some continuation takes the slave away early if and only if the manager has already decided to |
| MasterProtocol.DecisionIsFinal | src/master.cpp:753-761 | once decided, the next step of the manager takes the slave away, whatever the other threads do before |
| MasterProtocol.EarlyLoss | src/master.cpp:717-761 | a run in which, after a first round of the poller, an object restored with its old slave loses it in the second in which the outage begins |
| MasterProtocol.GraceUntilAnswered | src/master.cpp:626-649 | the grace period in terms of the answers: it holds until the slave reports itself as not initialised |
| MasterProtocol.UninterruptedPoll | src/master.cpp:612-664 | the steps of the poller add up to the callback |
| MasterProtocol.UninterruptedManage | src/master.cpp:741-795 | the steps of the manager add up to the callback |
| MasterProtocol.OutageEndsOnlyUninitialised | src/master.cpp:639-651 | over every run an outage ends if and only if the slave answers a poll with systemInit 0 |
| MasterProgress.ManagedExactly | src/master.cpp:717-775 | one visit in terms of the fields: wait below 120 s of an outage, give up behind that or without initialisation or with a load of 90, go back otherwise; the first of the least loaded slaves for an object without one |
| MasterProgress.VisitInOutage | src/master.cpp:717-761 | over every run: an object whose slave has been out for 120 s when the manager looks has no slave when it moves on, and one whose slave has been out for less than that even then still waits; neither is redirected |
| MasterProgress.GivenUpWithoutAnswer | src/master.cpp:717-761 | the same in terms of the answers: unless the slave reports itself as not initialised during the visit |
| MasterProgress.StuckExactly | src/master.cpp:602-715 | in every state of every interleaving nothing but the clock can move if and only if each thread holds the lock that the other waits for |
| MasterProgress.StuckForever | src/master.cpp:605-607 | from there on no slave and no object ever changes |
| MasterProgress.StuckExample | src/master.cpp:708-712 | a run that gets there after a first round of the poller |
| Master.DetachObjSlave | src/master.cpp:588-600 | an object is detached exactly when its slave has the address |
| Master.DetachSlave | src/master.cpp:602-610 | the whole queue is swept, objects that occur more than once included |
| Master.SweptAsDetached | src/master.cpp:588-610 | the sweep of the protocol detaches exactly the objects that the callback detaches |
| Master.SlaveLoad | src/master.cpp:612-664 | every field of the record afterwards, and exactly the objects detached by a new outage |
| Master.GetLowestLoadSlave | src/master.cpp:686-715 | the loop finds the first of the slaves that are online, initialised and below a load of 90 with the lowest load, or none if there is none |
| Master.SlaveIsNormal | src/master.cpp:717-735 | 0 below 120 s of an outage, -1 behind that; without an outage -1 when not initialised or at a load of 90, else 1 |
| Master.MobjManager | src/master.cpp:741-795 | wait below 120 s of an outage, give up, reattach or reassign, each in terms of the fields and as the steps of the manager add up to, and exactly the load that changes |
| LiveTask.AlwaysAlternates | src/rtsp/rtsp.cpp:149-197 | over every interleaving calls alternate beginning with start, the beat is positive exactly while started, and the object leaves the queue only while stopped |
| LiveTask.RestartsOnlyAfterSilence | src/rtsp/rtsp.cpp:178-189 | over every run a decision about a wanted stream stops it with the next step of the task beat if and only if every frame that has been stored, and every completed start, is more than 30 s old |
| LiveTask.StopsByDecision | src/rtsp/rtsp.cpp:172-186 | nothing else stops a wanted stream: before every such stop there is a beat that has read the flag as set, and its decision, between which and the stop the clock stands still |
| LiveTask.RightAboutArrivals | src/rtsp/rtsp.cpp:37-50 | when a restart is decided, every frame that has arrived is more than 30 s old if and only if no fresh frame is being handled |
| LiveTask.StoppedWithFreshFrame | src/rtsp/rtsp.cpp:179-186 | a run in which a wanted stream is stopped in the second of a frame that has just been stored |
| LiveTask.WithoutJoining | src/rtsp/rtsp.cpp:48-50 | when stopping does not wait for the callback, a run stops the stream twice |
| LiveTask.UninterruptedBeat | src/rtsp/rtsp.cpp:165-197 | the steps of the task beat, each read and each call on its own, add up to the callback |
| LiveTask.UninterruptedProcBeat | src/rtsp/rtsp.cpp:149-163 | the same for the process beat |
| LiveTask.UninterruptedCallback | src/rtsp/rtsp.cpp:37-50 | the same for the frame callback |
| LiveTask.UninterruptedManager | src/main.cpp:235-242 | the same for the object manager |
| Rtsp.TaskParams.RtspTaskBeat | src/rtsp/rtsp.cpp:165-197 | start, restart after more than 30 s, stop or nothing, by the flags as they were; what the steps lead to |
| Rtsp.TaskParams.RtspProcBeat | src/rtsp/rtsp.cpp:149-163 | the beat is renewed while the stream is wanted, and the object leaves the queue exactly when it is neither wanted nor started; what the steps lead to |
| Rtsp.TaskParams.RtspCallback | src/rtsp/rtsp.cpp:48-50 | while the stream is started the steps of the callback; otherwise the beat moves only while it is positive |
| Rtsp.TaskParams.ObjManager | src/main.cpp:235-242 | the steps of the object manager: the object is placed again after more than 20 s without a beat |
| ShmLayout.SegmentIsAligned | src/shm.cpp:91-100 | the segment is a multiple of 1 MiB with at least one byte and at most 1 MiB to spare |
| ShmLayout.InitShmArray | src/shm.cpp:57-88 | from the configuration alone: every pool behind the previous one, with its product as size up to the overflow of int; without overflow the places and sizes in closed form |
| ShmLayout.LaidFromConfig | src/shm.cpp:57-88 | the layout that all results below speak about is the one with these places and sizes |
| ShmLayout.PoolsApart | src/shm.cpp:69-86 | pools are disjoint from each other and from the head pool whenever no size overflows into the negative |
| ShmLayout.AllInside | src/shm.cpp:69-100 | all pools are inside the segment exactly when it reaches to the end of the last one |
| ShmLayout.InsideWithPools | src/shm.cpp:93-100 | with masterEnable 0 or 2 all pools are inside whenever no size overflows into the negative |
| ShmLayout.InsideOnMaster | src/shm.cpp:93-100 | with any other value exactly when they fit into the slack behind the head pool |
| ShmLayout.SoundExactly | src/shm.cpp:57-100 | sizes not negative, pools apart and inside, if and only if no size overflows into the negative and, on a pure master, the pools fit into the slack |
| ShmLayout.OutsideOnMaster | src/main.cpp:107 | a small configuration of a pure master whose only pool lies outside |
| ShmLayout.OutsideOnOverflow | src/shm.cpp:62-63 | a slave configuration whose pool size overflows into the negative and whose second pool starts before the segment |
| ShmLayout.HarmlessOverflow | src/shm.cpp:62-63 | a slave configuration whose pool size overflows and whose layout is sound |

## Left out

- Printer.PrintValue: requires that strings and the names of members are not null, because the C code dereferences them; the same holds for `BufferedPrinter.PrintValue`.
- Printer.PrintArray: takes the length as unbounded where the C code has an `int`, so a text of 2^31 bytes and more is not modelled correctly; the temporary buffers of the entries are never touched again, but that they are freed is not modelled.
- Printer.PrintObject: the same holds for its length and for its buffers of names and entries.
- BufferedPrinter.PrintBuffer.Ensure: requires that the needed size stays within 2^30 or within the buffer, because `pow2gt` overflows beyond.
- RoundTrip.ValueRoundTrip: numbers are the 32-bit integers; printing fractions and exponents needs `sprintf` on doubles.
- Parser.ParseNumber: keeps mantissa and exponent exactly; `pow`, rounding to double and the cast to `valueint` are not part of this model.
- Parser.ParseWithOpts: requires complete escapes, which `WellFormedText.DocumentSound` gives for a text that can be checked beforehand; without them the C code may read and write past its buffers. The error pointer `ep` is not modelled.
- BufferedPrinter.PrintBuffered: requires that the text with a slack of 21 bytes fits into 2^30 bytes or into the prebuffer, because `pow2gt` overflows beyond; the slack is what `print_number` reserves for its shortest text.
- Minifier.MinifyInPlace: requires that literals and block comments end before the NUL, because the C code runs past it otherwise.
- KeyCache.GetMsgKey: requires a start that is not negative, since keys share the cells with 0 and -1; the copies of two keys kept by `setKey2System` are not modelled.
- ShmLayout.SegmentIsAligned: takes the 64-bit size of the segment as unbounded; the slab allocator inside a pool is not part of this model.
- Strings hang on a node as unchangeable objects, one allocation each; a name or value that the caller changes in place is not captured.
- Failing allocations and `cJSON_InitHooks`: every allocation gives a new cell.
- `cJSON_AddItemToObject`, the lookups by name, which ignore case, and the `cJSON_Create...` functions: they add no harder list or ownership argument.
- The queue library: only its header exists; a queue is a bounded sequence, and a full one refuses.
- `fork`, process crashes and the reuse of pids: a new pid is assumed to be fresh, and the wait for a worker is a parameter that says whether it becomes ready.
- HTTP, the database and the clock: the answer of a slave and the second are parameters; the clock of the master never runs backwards and is positive.
- `delSlave` and `delObj`, which leave pointers behind.
- MasterProgress.VisitInOutage: says what a visit has done when it ends; that it ends is not promised, because the two threads can block each other.
- The three reads of a slave in the first condition of `slaveIsNormal` are one step, and so is the reading of its outage with the clock in the second. The search for the slave with the lowest load is one step under its lock, and the manager may begin before the first round of the poller is over: `slaveLoadOk` is not modelled, so the safety results cover more runs than there are.
- ProcPool.Place: the search for a process, which runs under `mutex_pid`, and the placement that follows it are one step.
- The clock of a process never runs backwards, and a player delivers one frame at a time.
- The player behind `rtsp_start` and `rtsp_stop`: that stopping waits for a running callback is the parameter `joins`; several processes hosting one object are not modelled.
- `src/preview`, `src/gat1400`, `src/db.cpp`, `src/mq.cpp`, `src/rest.cpp`, `src/msg.cpp` and `src/work.cpp`: they repeat the beat pattern or pass messages on.
