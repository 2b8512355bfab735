# infod3: a model and its proofs

infod3 is a small publish/subscribe key-value daemon. Clients connect, write `key NUL value` strings, read
them, and subscribe to patterns over keys. The daemon keeps the strings in a memory-mapped file, talks a
binary, a text and a framed protocol, and tells subscribers about every effective write.

This project models its core in Dafny and proves what it promises. Verify it with
`dafny verify dfyconfig.toml`.

- **The file store** (`Layout`, `Entries`, `Blocks`, `Packing`, `Recovery`, `Store`, `StoreRuns`): class `Store`
  works on an array of bytes as `store.c` does on its mapping, with every branch of allocation, reallocation,
  repacking, trimming and recovery. Each operation keeps the layout: records tile the file up to `space`, one
  sentinel gap follows, and the index is a strictly sorted bijection onto the data records. Over every run the
  store is a finite map, across reopenings and refused allocations.
- **The matcher** (`Matcher`, `Patterns`): the one-pass loop with four paren slots is proved equal to an evaluation of
  the parsed pattern, and that to laws over the pattern's text and over Unicode text, as people write patterns.
- **The protocols** (`RxBuf`, `TextProto`, `TextCodec`, `TypedLines`, `TextDecoder`, `BinProto`, `Wire`, `Proto`): decoders
  as byte machines, encoders, round trips, typed lines, fragmentation, resynchronisation, and a connection that detects
  its mode.
- **The daemon** (`Infod`, `InfodRuns`, `Nesting`, `Subscribers`, `Effects`, `Daemon`): the command machine over a finite
  map, its run theorems (transactions flatten at any nesting, subscribers know the store, reads answer the last write),
  and class `Daemon`, which does what the machine does on top of class `Store` and the matcher.
- **The list, the command buffer and the server** (`LinkedList`, `CommandBuffer`, `Server`): pointer-to-pointer links
  with slots as objects, the buffer of a transaction on such a list, and the swap-remove socket table with its poll
  pass.

## What the code does that its documentation does not say

- A put that has to grow an entry and is refused loses the entry, because its record is made a gap first
  (daemon/store.c:654-680). Its subscribers are not told (`Subscribers.DirectCoherent` says exactly when).
- `*\c` in a pattern looks for the backslash, not for c (daemon/match.c:64-70); PROTOCOL says otherwise.
  `Matcher.StarEscapeExact` gives the exact condition.
- A text `WRITE` or `INFO` of a key with a bare NUL and no value is sent as a bare key, so it is received without
  the NUL (`TextCodec.TextRoundTrip`).
- A COMMIT without BEGIN is an error, which a binary connection does not survive (`Effects.RequestsAnswered`);
  PROTOCOL says that it is ignored.
- A typed HELLO or VERSION whose number is left out before a text is read as number 0 (`TypedLines.ReadsFormats`).
- The test for a record that sticks out of the file subtracts in uint32 and is right exactly for records that are
  not larger than the file (`Recovery.TooBigExact`). A gap of size 0 stops the scan for ever (`Recovery.ScanStuck`).
- The subscription test is `>`, so that 17 subscriptions are allowed, and the count of buffered commands is never
  raised, so that transactions have no limit (daemon/infod.c:320, daemon/infod.c:396).
- A listener that reaches the socket limit when it is added stays enabled (`Servers.ListenerSound`).
- Shrinking a record in the middle does not merge the gap that follows it (daemon/store.c:625-630).

## Model

| member | source | states |
|---|---|---|
| `Layout.RoundUp32` | daemon/store.c:177-181 | The uint32 mask expression is a multiple of the alignment, at least its argument and less than one step above it, unless the sum wraps; then it is 0 |
| `Layout.Up8IsRoundUp` | daemon/store.c:243-247 | The recursive rounding to 8 that the proofs use is the uint32 `roundup(n, 8)` of the source wherever that does not wrap |
| `Layout.GapSizeIsUint32` | daemon/store.c:264-270 | The size of a gap is the two uint32 sums of the source, wrap included |
| `Layout.GapWritten` | daemon/store.c:255-262 | After a gap header is written, reading it back gives a gap of exactly that size and every other byte is unchanged |
| `Layout.SzWritten` | daemon/store.c:540-556 | After a record size is written, reading it back gives that size, the record is data, and every other byte is unchanged |
| `Layout.Retile` | daemon/store.c:272-311 | Rewriting only the bytes of a whole stretch of records, into something that is again whole records, keeps the file tiled and every data record elsewhere byte-identical |
| `Layout.DataBounds` | daemon/store.c:402-421 | The walk over a tiled stretch ascends, and each data record it finds is inside the stretch |
| `Bytes.LessIs` | daemon/store.c:232-238 | The order of keys is that of strcmp: up to some position both are the same, and there the smaller one ends or has the smaller byte |
| `Entries.SlotFinds` | daemon/store.c:746-773 | At a search slot the key is found exactly when the finite map has it, and the entry there is the map's value |
| `Entries.ReplaceUpdates` | daemon/store.c:781-790 | Replacing the entry at a slot keeps strict key order and is the map update |
| `Entries.InsertUpdates` | daemon/store.c:791-805 | Inserting at a slot keeps strict key order and is the map update |
| `Entries.RemoveUpdates` | daemon/store.c:808-823 | Removing an entry keeps strict key order and is the map removal |
| `Entries.IterationVisitsMap` | daemon/store.c:834-847 | Iteration visits every key of the map exactly once, in ascending order: the first position at which two keys differ decides |
| `Entries.ListingUnique` | daemon/store.c:834-847 | A map has only one sorted listing |
| `Blocks.BodyInfos` | daemon/store.c:243-270 | Every index entry is a whole, 8-aligned data record below `space` |
| `Blocks.IndexDistinct` | daemon/store.c:206-219 | The index never names a record twice |
| `Blocks.BodyFrame` | daemon/store.c:463-506 | The layout below `space` depends on nothing but the bytes there, so a remap to another size keeps it |
| `Blocks.AppendLaid` | daemon/store.c:545-556 | Carving a record off the space keeps the layout invariant, adds exactly that record and keeps all others byte-identical |
| `Blocks.GapSpanLaid` | daemon/store.c:559-577 | Turning a record and gaps behind it into one gap takes exactly that record out |
| `Blocks.RewindLaid` | daemon/store.c:559-577 | Rewinding `space` over a record that only gaps follow takes exactly that record out |
| `Blocks.ResizeLaid` | daemon/store.c:599-652 | Rewriting the span of a record into one data record of another size at the same offset keeps all others |
| `Blocks.ShrinkTailLaid` | daemon/store.c:612-619 | Shrinking the last record and rewinding `space` to its new end keeps the layout and all others |
| `Blocks.FillLaid` | daemon/store.c:781-806 | Filling in the bytes of one record changes no other record and no header |
| `Packing.PackInfo` | daemon/store.c:328-349 | Sliding a record down, even onto bytes of its own old place, extends the packed prefix by that record with its bytes and leaves every record still to be read untouched |
| `Packing.PackGap` | daemon/store.c:328-349 | Passing over a gap changes neither what is packed nor what is still to be read |
| `Packing.SlideBytes` | daemon/store.c:342-343 | The bytes that an overlapping slide writes are the source bytes as they were before it |
| `Packing.TotalPermute` | daemon/store.c:314-361 | What records need when nothing lies between them does not depend on their order |
| `Packing.StrictFromPermutation` | daemon/store.c:356-357 | Sorting any rearrangement of entries with distinct keys gives strictly ascending keys |
| `FileStore.Store.SlideDown` | daemon/store.c:342-343 | `memmove` to a lower address: the destination gets the old source bytes although the ranges may overlap, and nothing else changes |
| `FileStore.Store.InitGap` | daemon/store.c:255-262 | Writes a gap header of the given size and no other byte |
| `FileStore.Store.SetSpace` | daemon/store.c:273-282 | Sets `space` and writes one sentinel gap over the rest of the file, or nothing if there is no rest |
| `FileStore.Store.SetSize` | daemon/store.c:463-506 | A remap keeps the bytes that both sizes have; a refused one, and one to no bytes, changes nothing |
| `FileStore.Store.TrimSize` | daemon/store.c:509-524 | The size to trim to is whole pages with room beyond `space`, or 0 when the uint32 sum wraps, which no mapping can have |
| `FileStore.Store.Trim` | daemon/store.c:509-524 | Giving back pages changes neither records nor the index; if the system obliges, less than four pages are left beyond `space` |
| `FileStore.Store.IndexEnsure` | daemon/store.c:186-201 | A block with room for the slot and the same cells, or a failure with nothing changed |
| `FileStore.Store.ShiftUp` | daemon/store.c:213-215 | The overlapping move of the cells from a place on, up by one |
| `FileStore.Store.ShiftDown` | daemon/store.c:222-228 | The overlapping move of the cells behind a place, down by one |
| `FileStore.Store.IndexInsert` | daemon/store.c:206-219 | The index with the offset put in at its place; the cells of the block hold exactly that |
| `FileStore.Store.IndexDelete` | daemon/store.c:222-228 | The index without that entry; the cells of the block hold exactly that |
| `FileStore.Store.SlideRecord` | daemon/store.c:332-349 | The data record at the read position extends the packed prefix and the unread records are kept; the unchecked growth of the index cannot fail |
| `FileStore.Store.SlideAll` | daemon/store.c:328-349 | The loop: all data records in order with their bytes, packed from offset 0, and their offsets; a last gap may reach beyond the file |
| `FileStore.Store.Repack` | daemon/store.c:314-361 | From any tiled file: the data records keep their order and bytes, no gap is left below `space`, the layout invariant holds, and the index is sorted by key |
| `FileStore.Store.RepackValid` | daemon/store.c:314-361 | In an intact store the entries and their order are the same after a repack, and `space` is exactly the sum of the record sizes |
| `FileStore.Store.FileAlloc` | daemon/store.c:526-556 | Either a record of the wanted size is added and every other record keeps its bytes, or NULL is returned with all entries kept; while the records without gaps would leave room, it succeeds without a larger file |
| `FileStore.Store.FileDealloc` | daemon/store.c:559-577 | Exactly one record is taken out and all others keep their bytes: the last one by rewinding `space`, with excess pages given back, any other by one gap over it and the gap behind it |
| `FileStore.Store.ResizeInPlace` | daemon/store.c:599-603 | A size in the same allocation: only this entry changes |
| `FileStore.Store.ShrinkLast` | daemon/store.c:612-619 | Shrinking the last record: only this entry changes, and `space` ends at its new end |
| `FileStore.Store.ShrinkMiddle` | daemon/store.c:620-632 | Shrinking another record leaves a gap behind it; only this entry changes |
| `FileStore.Store.GrowIntoGap` | daemon/store.c:635-652 | Growing into the gap behind the record, exactly or by splitting it: only this entry changes |
| `FileStore.Store.Relocate` | daemon/store.c:654-681 | A growing record moves to the space, or after a repack and extension; if that fails exactly its entry is gone |
| `FileStore.Store.StayPut` | daemon/store.c:599-652 | The record stays where it is exactly if the new size fits its allocation or that and a gap behind it |
| `FileStore.Store.InfoRealloc` | daemon/store.c:585-681 | Entry i gets the wanted size and all others are unchanged, where it was if there is room; on failure the store is valid without entry i, and then the other records even without gaps leave no room, and the system refused or the file is near 2^32 |
| `FileStore.Store.Find` | daemon/store.c:746-766 | Binary search returns the slot: all keys before it are below the key and none from it on is |
| `FileStore.Store.Enter` | daemon/store.c:795-804 | A new record is put into its slot of the index and its bytes into the file, or nothing changes because the index cannot grow |
| `FileStore.Store.Put` | daemon/store.c:775-806 | 0 exactly if those bytes were already stored; 1 is the map update; -1 leaves the map without the key and all else as it was; -1 needs a refusal or a file near 2^32; while the other records without gaps leave room, a put neither fails for want of room nor grows the file; the file grows by at most the record and a page; the layout invariant holds in every case |
| `FileStore.Store.Del` | daemon/store.c:808-823 | 1 exactly if the key was there; the map without the key; a NULL key does nothing |
| `FileStore.Store.Get` | daemon/store.c:825-832 | The map's value, or None |
| `FileStore.Store.Next` | daemon/store.c:841-847 | The entry under the cursor and the cursor moved on, or None at the end |
| `FileStore.Store.GapRunEnd` | daemon/store.c:285-305 | The end of the run of gaps behind a record, sentinel included |
| `FileStore.Store.MakeGap` | daemon/store.c:285-311 | Exactly one record is taken out together with the gaps behind it |
| `FileStore.Store.Dedupe` | daemon/store.c:437-449 | One record survives for each distinct key, and the layout invariant holds; nothing is dropped if no key occurs twice |
| `FileStore.Store.Scan` | daemon/store.c:402-421 | Stops at the end of the longest prefix of whole records, or behind a gap there that is larger than the file, and counts the data records |
| `FileStore.Store.Load` | daemon/store.c:432-449 | Builds a valid store from a tiled prefix with one record per distinct key |
| `FileStore.Store.Open` | daemon/store.c:364-452 | A valid store with exactly one surviving record for each distinct key in the longest prefix of whole records; if no key occurs twice, exactly those records in key order |
| `FileStore.Store.Reopen` | daemon/store.c:402-449 | Opening the image that an intact store leaves gives the same entries in the same order and the same map |
| `FileStore.Store.OpenEmpty` | daemon/store.c:364-452 | Opening an empty file gives a valid store of nothing, a page long |
| `FileStore.TrimRoom` | daemon/store.c:509-524 | The trimmed size leaves room beyond `space`, and a wrapped sum is no size at all |
| `FileStore.TrimAim` | daemon/store.c:509-524 | Where trimming stops: one to two pages beyond `space`, and not before there are three |
| `FileStore.TrimShrinks` | daemon/store.c:509-524 | A few pages below 2^32, trimming makes the file smaller |
| `Recovery.TooBigExact` | daemon/store.c:416-417 | The uint32 test for a record that sticks out of the file is right exactly for record sizes up to the file size |
| `Recovery.TooBigOver` | daemon/store.c:416-417 | A gap larger than the file is caught exactly if its end wraps to beyond the file again |
| `Recovery.TooBigExample` | daemon/store.c:416-417 | A data record of 65544 bytes passes the test in a file of one page |
| `Recovery.ScanStuck` | daemon/store.c:402-421 | A gap has size 0 exactly for size fields 8 to 15 below 2^32; it passes the test and the scan does not advance |
| `Recovery.ScanLongest` | daemon/store.c:402-421 | What the scan keeps is whole records, and no longer prefix is |
| `Recovery.ReopenScan` | daemon/store.c:402-421 | The image of an intact store scans to its end, and its records are the entries |
| `Recovery.EmptyScan` | daemon/store.c:383-421 | An empty file is mapped as a page of NUL bytes, which scan as gaps of 8 bytes and no records |
| `Recovery.MappedWhole` | daemon/store.c:383-400 | A file of whole pages is mapped as it is |
| `StoreRuns.Run` | daemon/store.c:746-847 | Over every run of puts, deletes, gets and reopenings, with the system refusing at any point, every result is that of a finite map and the store ends as that map; and while the file has room below 2^32, every put and reopening for which the system obliges succeeds |
| `StoreRuns.GrantedRun` | daemon/store.c:746-847 | A run in which nothing is refused gives the results of a plain finite map: put 0 exactly if those bytes were stored and else 1 |
| `StoreRuns.RunFromEmpty` | daemon/store.c:364-847 | From an empty file, over every run for which the system obliges and there is room: exactly the results of a finite map that starts empty |
| `StoreRuns.GetReturnsLastPut` | daemon/store.c:775-832 | In every such run the value found for a key is the bytes last put for it, unless it was deleted or its last put was refused |
| `Matcher.Utf8Inc` | daemon/match.c:26-32 | Moves past one character: a lead byte and its continuation bytes, never past the end |
| `Matcher.Utf8Eq` | daemon/match.c:9-23 | True exactly if the character at one position is a prefix of the other string from its position |
| `Matcher.SameStart` | daemon/match.c:9-23 | That comparison looks no further than the other string's own character |
| `Matcher.FlatPassIsFirstMatch` | daemon/match.c:42-138 | The one-pass loop with its paren stack accepts exactly the patterns of the grammar, and on those it returns 1 exactly if first-matching-branch evaluation without backtracking consumes the whole key, and else 0; on others never 1 |
| `Matcher.Lockstep` | daemon/match.c:42-138 | A check and a match walk the pattern in step: a check never returns 0, an accepted pattern never gives -1 on any string, a rejected one never 1 |
| `Matcher.CheckDepth` | daemon/match.c:42-138 | A check depends on the pattern and the number of open parens only |
| `Matcher.RunPat` | daemon/match.c:42-138 | A sequence of elements takes the string cursor where its evaluation says, or marks the branch failed and goes on consuming pattern |
| `Matcher.RunAlts` | daemon/match.c:84-111 | Branches of a group: the first branch that matches decides, later ones are consumed without effect |
| `Matcher.DoMatch` | daemon/match.c:42-138 | The loop with its array of four paren slots: check gives 1 or -1 by the grammar, match gives 1 or 0 by the evaluation; every array and string access is in range |
| `Matcher.Match` | daemon/match.c:140-144 | 1 exactly if the text is a pattern that matches the string, 0 if it is one that does not; never 1 on an invalid one |
| `Matcher.IsValid` | daemon/match.c:146-150 | True exactly for patterns of the grammar |
| `Matcher.StarEscapeFails` | daemon/match.c:64-70 | `*\c` as coded never matches, unless c is a backslash |
| `Matcher.StarEscapeExact` | daemon/match.c:64-70 | `*\c` means "up to and including the next c" exactly when c is a backslash |
| `Matcher.StarEscapeParses` | daemon/match.c:53-70 | Wherever `*\c` stands in a pattern it is read as that element |
| `Matcher.StarEscapeNeverMatches` | daemon/match.c:53-138 | A valid pattern that begins with `*\c` matches no string at all, unless c is a backslash |
| `Matcher.StarEscapeExample` | daemon/match.c:53-138 | The pattern `*\c` is valid and does not match the string c |
| `Patterns.HitsTakesAll` | daemon/match.c:133-138 | A pattern matches a string exactly if it takes all of it |
| `Patterns.ByteTakes` | daemon/match.c:112-131 | An ordinary byte in front of a pattern takes itself and leaves the rest of the string to the pattern, or fails |
| `Patterns.EscapedTakes` | daemon/match.c:114-131 | So does any byte behind a backslash |
| `Patterns.AnyTakes` | daemon/match.c:118-131 | A ? takes one character and leaves the rest, and fails at the end |
| `Patterns.StarTakes` | daemon/match.c:63-71 | A * before a character leaves the string from the next such character on to the rest of the pattern |
| `Patterns.StarAnyTakes` | daemon/match.c:61-62 | `*?` is `?` |
| `Patterns.LastStarTakes` | daemon/match.c:57-60 | A * at the end takes everything |
| `Patterns.GroupTakes` | daemon/match.c:72-111 | A group, at any depth, takes what its first matching branch takes, and the rest of the pattern goes on from there |
| `Patterns.Malformed` | daemon/match.c:53-134 | Texts that are no patterns: \| or ) outside a group, ** and *(, a backslash at the end, a group that is not closed or too deep |
| `Patterns.WordHits` | daemon/match.c:42-138 | A pattern without special bytes matches itself and nothing else |
| `Patterns.PrefixHits` | daemon/match.c:42-138 | A word and a * match exactly the strings that begin with the word |
| `Patterns.ChoiceHits` | daemon/match.c:42-138 | `(a\|b\|...)` and a pattern: the first word that the string begins with decides, and the pattern matches what follows it |
| `Patterns.CharSpan` | daemon/match.c:26-32 | A character is a single byte, or a lead byte with all the continuation bytes behind it |
| `Patterns.SeekNext` | daemon/match.c:68-70 | The scan for an ASCII byte stops at the next one or at the end, with none before it |
| `Patterns.SeekText` | daemon/match.c:68-70 | In UTF-8 text the scan for any character stops at the first occurrence of that character |
| `Patterns.StarByteHits` | daemon/match.c:53-138 | `*x` matches exactly the strings that end in x and have no x before that |
| `Patterns.StarBetweenHits` | daemon/match.c:53-138 | `u*v` for words u and v matches exactly the strings u m v where the first byte of v is not in m |
| `Patterns.StarCharHits` | daemon/match.c:53-138 | `*c` for any Unicode character c matches exactly the texts that end in c and have no c before that |
| `Patterns.AnysHit` | daemon/match.c:118-131 | n question marks match exactly the texts of n characters, however many bytes these have |
| `RxBufs.RxBuf.Resize` | lib/rxbuf.c:31-52 | Refused exactly from 64 kB on; the contents are kept |
| `RxBufs.RxBuf.Addc` | lib/rxbuf.c:54-61 | Appends the byte, refused exactly when 64 kB are full |
| `RxBufs.RxBuf.Add` | lib/rxbuf.c:63-71 | Appends the bytes, refused exactly when they do not fit below 64 kB |
| `RxBufs.RxBuf.Clear` | lib/rxbuf.c:74-79 | Empty contents |
| `RxBufs.RxBuf.Trim` | lib/rxbuf.c:81-86 | Contents without trailing spaces |
| `RxBufs.RxBuf.ZeroPad` | lib/rxbuf.c:88-95 | A NUL behind the contents, which do not change |
| `TextProto.AgainDescends` | lib/prototext.c:103-277 | Every `goto again` lowers a rank made of the state and the remaining format, so the chain for one byte ends |
| `TextProto.EolResyncs` | lib/prototext.c:103-277 | From every state, a CR or LF that does not close the connection leaves the decoder as fresh |
| `TextProto.LinesIndependent` | lib/prototext.c:279-300 | Whatever came before, what follows a line that did not close the connection decodes as from a fresh decoder |
| `TextProto.FeedSplit` | lib/prototext.c:279-300 | Decoding a concatenation is decoding the parts one after the other |
| `TextProto.TableFormats` | lib/prototext.c:17-44 | No format of the table has two bars in a row, and none is longer than four |
| `TextCodec.WordsDiffer` | lib/prototext.c:17-44 | No two command words of the table are the same |
| `TextCodec.WordFound` | lib/prototext.c:141-159 | A word typed in any letter case is found as that word of the table and no other |
| `TextCodec.FeedEscape` | lib/prototext.c:242-274 | The quoted text of any byte decodes to that byte |
| `TextCodec.FeedDecimal` | lib/prototext.c:205-220 | The decimal of any byte decodes to that byte |
| `TextCodec.LineDecodes` | lib/prototext.c:426-558 | Every line that the encoder sends for a payload of at most 65533 bytes decodes from line start to exactly one message and ends at line start |
| `TextCodec.TextRoundTrip` | lib/prototext.c:103-558 | The message decoded is the one sent exactly unless it is a key with a bare NUL and no value for a `t\|0t` format |
| `TextCodec.BareNulExample` | lib/prototext.c:426-558 | A WRITE that comes back as sent, and one with a bare NUL that does not |
| `TextCodec.BareNulFails` | lib/prototext.c:103-558 | That second WRITE arrives as the key alone: sent with a NUL, received without |
| `TextCodec.StreamRoundTrip` | lib/prototext.c:279-558 | A concatenation of encoded messages decodes to the same list of messages |
| `TextCodec.QuotedClean` | lib/prototext.c:398-424 | A quoted string has no CR, LF, NUL or quote between its quotes |
| `TextCodec.MessageIsOneLine` | lib/prototext.c:426-558 | Whatever bytes are sent, a message is one line: CR LF at its end, and no CR, LF or NUL before |
| `TextCodec.OutputTextString` | lib/prototext.c:398-424 | Appends the quoted string, refused exactly above 65535 bytes |
| `TextCodec.OutputText` | lib/prototext.c:426-558 | The loop over the format and the arguments sends exactly the specified line, or nothing for the specified errors |
| `TextDecoders.TextDecoder.EndWord` | lib/prototext.c:141-159 | The end of a command word: lookup, or an error |
| `TextDecoders.TextDecoder.FindWord` | lib/prototext.c:143-145 | The search finds the first table entry with the word |
| `TextDecoders.TextDecoder.Deliver` | lib/prototext.c:168-183 | The end of a command line: the message with its payload, or an error for missing arguments |
| `TextDecoders.TextDecoder.TurnArgSp` | lib/prototext.c:160-204 | Spaces before arguments |
| `TextDecoders.TextDecoder.TurnInt` | lib/prototext.c:205-220 | A decimal argument is stored as a byte, larger numbers are refused |
| `TextDecoders.TextDecoder.TurnStr` | lib/prototext.c:221-241 | An unquoted argument ends at the end of the line or, before another argument, at a space |
| `TextDecoders.TextDecoder.TurnQuoted` | lib/prototext.c:242-258 | Quotes and escapes |
| `TextDecoders.TextDecoder.TurnOctal` | lib/prototext.c:259-274 | Octal escapes |
| `TextDecoders.TextDecoder.Recv1ch` | lib/prototext.c:103-277 | One byte takes the decoder, its fixed command buffer and its receive buffer exactly where the specification says, with the same messages and result |
| `TextDecoders.TextDecoder.RecvText` | lib/prototext.c:279-300 | A fragment likewise, up to the first byte that closes the connection; an empty one ends the line and tells the handler |
| `TextDecoders.FeedStops` | lib/prototext.c:279-300 | Nothing is read after a byte that closes the connection |
| `TypedLines.FeedStr` | lib/prototext.c:228-241 | The bytes of an argument without quotes go into the message as they are |
| `TypedLines.LastText` | lib/prototext.c:228-241 | The last text argument goes to the end of the line, spaces inside it included and trailing ones dropped |
| `TypedLines.IntTyped` | lib/prototext.c:205-220 | Digits are stored as the byte they stand for |
| `TypedLines.IntOverflows` | lib/prototext.c:205-220 | A number above 255 is one ERROR, and the rest of the line is ignored |
| `TypedLines.FormatPasses` | lib/prototext.c:160-204 | Before an argument a bar in the format is passed, a 0 stores a NUL, and an int without digits stores 0 |
| `TypedLines.TypedLine` | lib/prototext.c:103-277 | A line of a table word in any letter case, spaces and arguments without quotes delivers exactly that command with the bytes of those arguments, or one ERROR for missing, surplus or too large ones |
| `TypedLines.CaseIgnored` | lib/prototext.c:143-145 | A word of the table is found exactly when each of its letters is typed as a capital or small letter |
| `TypedLines.CommandWords` | lib/prototext.c:17-44 | The words of the table, and most of their first letters, have the ids of the commands that the daemon carries out |
| `TypedLines.ReadsFormats` | lib/prototext.c:17-44 | What the arguments of each format are read as: texts as they are, key NUL value, an int as a byte |
| `TypedLines.UnknownLine` | lib/prototext.c:129-152 | A line that does not begin with a word of the table, or with one too long, is one ERROR, and nothing else on it counts |
| `TypedLines.UnclosedQuote` | lib/prototext.c:242-247 | A quoted string that the end of the line cuts off is one ERROR, and the next line starts afresh |
| `TypedLines.BadEscape` | lib/prototext.c:259-266 | A backslash without three octal digits behind it is one ERROR, and the rest of the line is ignored |
| `TypedLines.LineAnsweredOnce` | lib/prototext.c:103-277 | Whatever is on a line that fits the buffer, it is answered once, by a command, the help text or an ERROR; a blank line is not |
| `TypedLines.TypedIsText` | lib/proto.c:172-182 | A line that begins with a table word in any letter case, or with a space, is detected as text |
| `BinProto.ParseMore` | lib/protobin.c:23-73 | Parsing a longer stream goes on exactly where the shorter one stopped |
| `BinProto.ReassemblyIgnoresSplit` | lib/protobin.c:23-73 | Any split of a stream into chunks delivers the messages that a parser of the whole stream finds |
| `BinProto.BinDecoder.Prepare` | lib/protobin.c:30-46 | Room for the header or the packet, and how many bytes are missing; refused exactly for packets that cannot fit below 64 kB |
| `BinProto.BinDecoder.Complete` | lib/protobin.c:52-68 | A complete packet is handed on with its id and payload, and the buffer is empty again |
| `BinProto.BinDecoder.RecvBinary` | lib/protobin.c:23-73 | A positive result means the whole fragment was taken in, its messages delivered in order and the rest kept; with a positive handler it fails exactly where the parser of the stream does; whenever it stops, what was delivered is a prefix of what the stream holds; an empty fragment tells the handler |
| `BinProto.BinDecoder.TakeSome` | lib/protobin.c:33-68 | One turn: bytes up to the end of a header, a packet or the fragment, with what the stream still holds |
| `Wire.ToBinaryIov` | lib/protofram.c:29-80 | The vectors hold exactly the payload of the arguments; refused exactly when there are too many |
| `Wire.OutputBinary` | lib/protobin.c:89-119 | Sends the id, the length of the payload with its high byte first and the payload, or nothing when the payload or the arguments are too many |
| `Wire.OutputFramed` | lib/protofram.c:92-106 | Sends id and payload as one frame |
| `Wire.PacketParses` | lib/protobin.c:14-119 | Receiving inverts sending for payloads up to 65531 bytes, whatever follows on the stream |
| `Wire.FrameParses` | lib/protobin.c:14-73 | An id, two length bytes with the high one first and that many bytes are one message, whatever follows |
| `Wire.PacketTooBig` | lib/protobin.c:30-60 | A larger payload is never received |
| `Wire.BinaryRoundTrip` | lib/protobin.c:14-119 | Under any fragmentation the messages sent are the messages received, in order |
| `Wire.FeedIgnoresSplit` | lib/prototext.c:279-300 | Any split of a text stream into chunks decodes as the whole |
| `Wire.DetectSigned` | lib/proto.c:172-182 | Detection compares signed chars: LF, CR, space and 0x40 to the tilde are text, and bytes from 0x80 on are binary |
| `Wire.FirstBytes` | lib/proto.c:172-182 | The first byte of every encoded table message is detected as binary, and of every encoded line as text |
| `Wire.WireTransparency` | lib/proto.c:156-228 | One message reaches the handler as the same id and payload through the binary, the text and the framed form, under any fragmentation, and detection tells the stream forms apart |
| `Protos.Proto.Recv` | lib/proto.c:156-197 | The first byte selects the mode once; bytes go to the decoder of the mode, with its effect and result; an empty read tells the handler and returns 0 |
| `Protos.Proto.RecvAll` | lib/proto.c:156-197 | Fragments of a new connection: the mode is that of the first byte, and the decoder of that mode gets what the whole stream holds |
| `Protos.Proto.Output` | lib/proto.c:209-228 | The first message sent selects binary; each goes to the encoder of the mode |
| `Protos.Proto.SendAll` | lib/proto.c:209-228 | Several messages give the stream of their packets or of their lines |
| `Protos.Converse` | lib/proto.c:156-228 | Two ends of a connection: whatever the sender's mode and however its stream is cut into fragments, the receiver detects the mode and its handler gets exactly the messages sent |
| `Protos.Type` | lib/proto.c:156-197 | A typed line on a new connection, however it is cut into fragments: text is detected and the handler gets exactly that command, or one ERROR is sent |
| `Protos.Received` | lib/proto.c:156-228 | What the stream of either form comes to under any cutting |
| `Infod.FindSub` | daemon/infod.c:207-217 | The first subscription with the pattern, or the end exactly if there is none |
| `InfodRuns.StepOk` | daemon/infod.c:371-487 | Every event keeps all clients and the store healthy |
| `InfodRuns.RunOk` | daemon/infod.c:302-328 | In every reachable state nsubs is the number of subscriptions and at most 17, all patterns are valid, and outside a transaction nothing is buffered |
| `InfodRuns.ActErases` | daemon/infod.c:371-487 | A command outside a transaction reads and writes nothing of any transaction |
| `InfodRuns.PlaybackFlat` | daemon/infod.c:306-319 | Playing a buffer does what giving its commands directly does, up to the first that closes the connection |
| `InfodRuns.StepFlat` | daemon/infod.c:386-390 | What an event does that can be seen is what its direct commands do |
| `InfodRuns.TransactionSilent` | daemon/infod.c:294-329 | Nothing a client sends between BEGIN and the outermost COMMIT changes the store, a subscription or any output |
| `InfodRuns.TransactionsFlatten` | daemon/infod.c:294-482 | Every run, however clients interleave, has the store, subscriptions and output of a run without BEGIN in which each transaction's commands stand together at its outermost COMMIT |
| `Nesting.OthersHold` | daemon/infod.c:294-487 | What others do leaves a client's depth and buffer alone |
| `Nesting.DepthIsCounted` | daemon/infod.c:302-328 | While a client has sent more BEGINs than COMMITs, whatever others do, its depth is the difference, its buffer is what it sent besides, and none of it has been carried out |
| `Nesting.NestedSilent` | daemon/infod.c:302-308 | Nothing that a client sends before it has sent as many COMMITs as BEGINs can be seen |
| `Nesting.CommitPlays` | daemon/infod.c:305-319 | The COMMIT that makes them equal carries out all that the client sent between, in order and without interruption, whatever others did meanwhile |
| `Nesting.BracketIsCommands` | daemon/infod.c:302-319 | A client's commands in any balanced nesting of BEGIN and COMMIT do what the commands alone do |
| `Effects.WriteIsRead` | daemon/infod.c:426-455 | After a WRITE of a value under a key that does not end in !, a READ of the key by any client answers that value |
| `Effects.DeleteIsRead` | daemon/infod.c:426-442 | After a WRITE of a bare key, a READ of it by any client answers the bare key |
| `Effects.OthersAreRead` | daemon/infod.c:426-455 | A WRITE, refused or not, changes no answer to a READ of another key |
| `Effects.StoreIsLastWrites` | daemon/infod.c:371-487 | Over every run, transactions included, the store is the map of last writes: a value, nothing after a bare key or a refused replacement, or what was there at first |
| `Effects.ReadIsLastWrite` | daemon/infod.c:426-433 | At the end of every run, a READ by any connected client answers the last write |
| `Effects.WriteTells` | daemon/infod.c:434-473 | A WRITE that changes the store, or whose key ends in !, brings every client exactly one INFO for each of its subscriptions that match the key; any other WRITE brings nobody anything |
| `Effects.BangIsPassedOn` | daemon/infod.c:443-473 | A value whose key ends in ! is told to each matching subscription and never stored |
| `Effects.RefusedTells` | daemon/infod.c:446-455 | A WRITE that the store refuses brings its sender one internal error and a close, and nobody else anything |
| `Effects.SubscribeSends` | daemon/infod.c:408-417 | A SUB sends exactly the entries whose key its pattern matches, each once, in the order of their keys |
| `Effects.SubscribeRefuses` | daemon/infod.c:395-407 | A SUB is refused exactly for a client with 17 subscriptions or for a text that is no pattern, with the error that says so, and changes nothing then |
| `Effects.ReadRefuses` | daemon/infod.c:426-429 | A READ is refused exactly for a key with a NUL |
| `Effects.RequestsAnswered` | daemon/infod.c:392-487 | HELLO, PING, COMMIT without BEGIN and unknown commands are answered once, concern nobody else and leave the store alone |
| `Effects.EndsExactly` | lib/proto.c:122-141 | A command ends its sender's connection exactly if it is the close, or brings it an error that is internal or on a binary connection |
| `Effects.GoneExactly` | daemon/infod.c:219-232 | After such a command its sender is gone, after any other it is not, and nobody else comes or goes |
| `Effects.ConnectIsFresh` | daemon/infod.c:495-526 | A new connection has no subscriptions, no transaction and no messages, and changes nothing else |
| `Effects.TextClientLasts` | daemon/infod.c:371-487 | While the store refuses nothing, a text client stays connected until it closes the connection, in every run |
| `Subscribers.MatchingAgrees` | daemon/infod.c:408-416 | What a new subscription sends is everything in the store that it is about |
| `Subscribers.NoticesAgree` | daemon/infod.c:456-473 | The notices of a write bring every subscriber of the key up to date |
| `Subscribers.SubscribeCoherent` | daemon/infod.c:395-417 | A successful SUB leaves the client knowing the store as far as its pattern goes |
| `Subscribers.DirectCoherent` | daemon/infod.c:395-473 | Any command of any client keeps a subscriber's knowledge right, exactly unless it is a refused put that loses an entry the subscription is about |
| `Subscribers.SubscribersKnowStore` | daemon/infod.c:395-473 | From any moment at which a subscriber's messages tell it the store they go on doing so, in every run, transactions included, until the UNSUB or the close, if no refused put loses an entry in view |
| `Subscribers.SubscriptionTellsStore` | daemon/infod.c:395-473 | In every run, for every SUB that is accepted, directly or at a COMMIT: replaying the INFO messages since then gives the store restricted to matching keys not ending in !, until the UNSUB or the close, if no refused put loses such an entry |
| `Subscribers.ObligedTellsStore` | daemon/infod.c:395-473 | Without refusals this holds of every subscription |
| `Subscribers.ActKeepsSub` | daemon/infod.c:418-425 | Only the client's own UNSUB of that pattern takes a subscription away |
| `Subscribers.ReadTells` | daemon/infod.c:426-433 | READ answers with exactly one message, about that key, that is true of the store |
| `Subscribers.UnsubscribeOne` | daemon/infod.c:418-425 | UNSUB takes out one subscription with the pattern, the newest, and no other; without one it does nothing |
| `Subscribers.RefusedPutIsSilent` | daemon/infod.c:446-455 | A refused put over an entry with other bytes takes it out of the store without a word to its subscribers |
| `Subscribers.RefusedPutExample` | daemon/infod.c:446-455 | A concrete world in which that happens |
| `Daemons.Daemon.OutputError` | lib/proto.c:122-141 | The error is sent; the client stays only in text mode and not after an internal error |
| `Daemons.Daemon.NotifyClient` | daemon/infod.c:458-472 | The inner loop sends one INFO for each matching subscription of the client |
| `Daemons.Daemon.NotifyClients` | daemon/infod.c:456-473 | The outer loop does so for every client |
| `Daemons.Daemon.FindSubscription` | daemon/infod.c:207-217 | The loop finds the first subscription with the pattern |
| `Daemons.Daemon.SendMatching` | daemon/infod.c:408-416 | The loop over the store sends one INFO for each matching entry, in key order |
| `Daemons.Daemon.Sub` | daemon/infod.c:395-417 | The subscription limit, the validity test, the new subscription and what it sends |
| `Daemons.Daemon.Unsub` | daemon/infod.c:418-425 | Removes the first subscription with the pattern, if any |
| `Daemons.Daemon.ReadKey` | daemon/infod.c:426-433 | The entry, or the bare key |
| `Daemons.Daemon.Update` | daemon/infod.c:434-455 | The change to the file store, with no effect, refusal and effect told apart; a refusal needs an unobliging system or a file near 2^32 |
| `Daemons.Daemon.WriteData` | daemon/infod.c:434-473 | The change to the file store and the notices that follow it |
| `Daemons.Daemon.Dispatch` | daemon/infod.c:392-487 | The command switch over the file store does what the machine does |
| `Daemons.Daemon.PlayBuffer` | daemon/infod.c:309-318 | The playback loop over the file store does what the machine's playback does; the file and what is still buffered stay within what they were, and nothing is refused for which the system obliges |
| `Daemons.Daemon.BufferCommand` | daemon/infod.c:294-329 | Nesting, playback and buffering |
| `Daemons.Daemon.OnAppInput` | daemon/infod.c:371-487 | A command over the file store does what the machine does, output and result included |
| `Daemons.Daemon.Accept` | daemon/infod.c:495-526 | A new client record at the head of the list |
| `Daemons.Daemon.Drop` | daemon/infod.c:219-232 | The client's record is gone, all others stay |
| `Daemons.Daemon.Loop` | daemon/infod.c:371-487 | Over any list of events the daemon on the file store does what the machine does, so that the run theorems hold of it; with room in the file, no command is refused for which the system obliges |
| `Daemons.Daemon.Serve` | daemon/infod.c:371-487 | One command with the close that may follow; the file and all buffered commands together grow by no more than the command |
| `Daemons.Daemon.Session` | daemon/infod.c:371-487 | The daemon on its file store, for any events, an obliging system and room in the file: every subscription that lasts tells its client the store, and the file store holds the last writes |
| `LinkedList.Insert` | daemon/list.h:32-40 | Inserts at the head or at any next field: the sequence with the element put in there, `*p->prevp == p` for every element |
| `LinkedList.Remove` | daemon/list.h:45-50 | The sequence without the element, which is unlinked; the invariant holds for all others |
| `LinkedList.Append` | daemon/list.h:58-67 | Aborts exactly when the tail slot is not empty; else the sequence with the element at its end, and the tail behind it |
| `LinkedList.LinkedInvariant` | daemon/list.h:5-11 | Every element of a list satisfies `*p->prevp == p` |
| `LinkedList.TailList.Begin` | daemon/infod.c:476-479 | The tail is set to the head: the end of the list exactly if the list is empty |
| `LinkedList.TailList.Add` | daemon/list.h:58-67 | At such a tail APPEND aborts exactly if the list had elements, and else adds the element at the end |
| `LinkedList.TailList.Take` | daemon/infod.c:309-311 | The first element is taken out and unlinked, the others stay in order |
| `CommandBuffers.AfterIsExec` | daemon/infod.c:294-329 | The depth and the buffer that the list keeps are those of the command machine |
| `CommandBuffers.PlaysIsFlat` | daemon/infod.c:305-319 | The commands that an input causes to be carried out are the direct commands it amounts to |
| `CommandBuffers.CommandBuffer.Keep` | daemon/infod.c:323-328 | Buffering appends the command and does not abort |
| `CommandBuffers.CommandBuffer.PlayBack` | daemon/infod.c:309-318 | The commands are played in order up to the first that closes the connection, and the list is then empty or the connection closed |
| `CommandBuffers.CommandBuffer.Input` | daemon/infod.c:302-328 | Any input keeps: inside a transaction the tail is that of the list, outside one the list is empty; what is played and buffered is as specified, and APPEND does not abort |
| `CommandBuffers.CommandBuffer.Connection` | daemon/infod.c:294-329 | Over any list of inputs of a connection, up to the one that ends it, APPEND never aborts |
| `Servers.SwapGather` | daemon/server.c:190-194 | Moving the last row into a freed place loses no row and leaves earlier rows alone |
| `Servers.ToggleClients` | daemon/server.c:74-89 | Enabling and disabling listeners does nothing to clients |
| `Servers.AddedSound` | daemon/server.c:139-165 | A new socket keeps descriptors distinct and listeners enabled exactly below the limit |
| `Servers.ClosedSound` | daemon/server.c:168-203 | So does a close |
| `Servers.RoomToAccept` | daemon/server.c:286-292 | A listener that poll reports is enabled, so there is room for one more socket |
| `Servers.PassClose` | daemon/server.c:299-311 | After a close the row that took the place is looked at next, and nothing is skipped or seen twice |
| `Servers.PassAccept` | daemon/server.c:286-292 | An accepted connection goes to the end of the table and is quiet |
| `Servers.DroppedExactly` | daemon/server.c:295-311 | A client is closed exactly if on_ready() returned 0 or less for it |
| `Servers.ListenerSound` | daemon/server.c:364-376 | Adding a listener keeps listeners enabled exactly below the limit if and only if it does not reach the limit |
| `Servers.ListenerAtLimit` | daemon/server.c:364-376 | With a limit of one, the listener that is added stays enabled in a full table |
| `Servers.Server.ListenEnable` | daemon/server.c:74-89 | The loop switches every listener and no client |
| `Servers.Server.Resize` | daemon/server.c:92-126 | Room for the wanted number and at most one step more, or -1; the rows are kept in both cases |
| `Servers.Server.AddSocket` | daemon/server.c:131-165 | A new quiet row, with listeners disabled once the limit is reached; or no change |
| `Servers.Server.AddListener` | daemon/server.c:364-376 | The new listener row, and exactly when the table is as it should be afterwards |
| `Servers.Server.AddFd` | daemon/server.c:231-255 | The scan gives the data to the row of that descriptor |
| `Servers.Server.CloseDelete` | daemon/server.c:168-203 | Descriptor and data of the last row move together into the freed place |
| `Servers.Server.TurnRow` | daemon/server.c:276-311 | One row: what was dispatched, closed, accepted and heard so far and what is still ready make up what there was |
| `Servers.Server.Pass` | daemon/server.c:275-312 | The deleting loop ends; every client that was ready is dispatched exactly once with its own data, and closed exactly if on_ready() returns 0 or less; every ready listener is heard once if the limit is out of reach, and yields what accept() returned; clients before and accepted are clients closed and there; all events are cleared; accepts do not pass the limit |
| `Servers.Server.Poll` | daemon/server.c:257-314 | The same for a whole poll, and listeners are enabled exactly below the limit afterwards |

## Left out

- Foreign calls: sockets, poll, accept, mmap, ftruncate, flock, realloc, malloc and signals are parameters that say whether the system obliges, or are not modelled; a failing ftruncate after a remap, the error check of posix_fallocate and a failing malloc in the receive buffer, for a subscription or for a buffered command are not.
- Output that is dropped: sends in the daemon always succeed, so the close of a client whose socket buffer is full is not modelled.
- Handlers that change the socket table: `on_accept` and `on_ready` are taken not to, which holds of the daemon's own.
- FileStore.Store.Open: images on which the source does not end or reads beyond its mapping: a gap of size 0, a gap whose end wraps around into the file, a data record larger than the file, a key without NUL. All others are covered.
- FileStore.Store.SortIndex: stands for qsort with the key comparison, and works on a sequence that is then written to the cells; which of several records with one key survives an open is not fixed.
- Subscribers.SubscriptionTellsStore: excludes, by `Lossless`, runs in which a refused put loses an entry in view, because the claim is false there; `DirectCoherent` is the exact condition for one command.
- TextProto.Recv: does not model the help lines, the texts of error messages and the id of the HELLO banner's software name.
- Wire.OutputBinary: arguments are a sequence of a small datatype; syntax errors in format strings and varargs are not modelled.
- The 4096-byte text output buffer: sending is appending to a sequence.
- The receive buffer shared by the text and binary decoders of one connection: each decoder has its own, since a connection uses only one.
- FileStore.Store.Scan: the first three kinds of those images.
- RxBufs.RxBuf.Resize: a failing realloc is not modelled.
- FileStore.Store.SetSize: the index holds offsets, so that pointing it into a new mapping is not modelled.
- Crash consistency in the middle of an operation.
- Maximal gap merging, which the source does not do.
- Hosts that are not little-endian.
- lib/info.c, client/info.c, lib/socktcp.c, lib/sockunix.c, option parsing, logging and verbose traces: they would only add easy members.
- Daemons.Daemon.Accept: the failure to allocate a client record is not modelled, and whether a client talks text is fixed when it connects rather than at its first byte.
- Servers.Server.Poll: takes it that poll reports only requested events and that accept does not return a descriptor in use; freeing the server is not modelled.
- Protos.Proto.Recv: the test for a missing NUL pad and a connection without an input handler are not modelled.
