# A verified model of the row-based replication client

The library reads a MySQL binary log as a replication slave would. It connects to a master, asks for a dump from a
stored position, and turns the packets that arrive into callbacks: `on_insert`, `on_update` and `on_delete` of a
watched table, each with the rows of one event. This project models that path and proves what the callbacks show.

The path has four parts, and the main results are about the parts put together.

1. **Row images.** `CTable::update` walks a rows event with a data cursor, a metadata cursor and a column bit, through
   rows, before and after images, and columns. `RowImages` prints the body of a rows event the way a master does, and
   proves that the loops read back exactly the printed rows and use up every byte.
2. **Packed decimals.** `_init_decimal` reads groups of nine decimal digits with partial groups at both ends, a
   complement for negative numbers and a flipped top bit. `Decimals` gives the format a value, proves the round trip
   and that byte order is numeric order; `DecimalReader` proves that the loops over the word buffer compute just that.
3. **Framing.** Column bitmaps that carry their own population count in the top byte, length-encoded numbers, table
   maps and rows events.
4. **The event loop as a state machine.** Which table an id stands for, when a cached layout is trusted, where reading
   resumes after a lost connection, and which callbacks have been made by then.

`Stream.WrittenRowsAreDelivered` joins them: a log of written events, printed as packets, read by a client whose
connection drops under any schedule, comes out of the callbacks as the rows that were written, at least once each and
with a callback of its own for every time an event was sent. `Session` gives the packets to the loop itself and shows
that it ends in the state these theorems speak of.

## Layout

| file | subject |
|---|---|
| `Numbers.dfy`, `Memory.dfy`, `Bits.dfy` | numerals and their order; event buffers and little-endian reads; bit operations on numbers |
| `Values.dfy` | metadata sizes, field extents, the slice of a value (`CValue`) |
| `EventCodes.dfy` | the type bytes of rows events as a master writes them |
| `RowEvents.dfy`, `TableMaps.dfy` | bitmaps, length-encoded numbers, `CRowLogEvent`, table-map fields |
| `Tables.dfy`, `RowImages.dfy` | `CTable`: the layout cache and the row loops; the printed form and the round trip |
| `Columns.dfy` | declared columns, their types, metadata and values |
| `Decimals.dfy`, `DecimalReader.dfy` | the packed-decimal format; `_init_decimal` |
| `Variants.dfy`, `ColumnValues.dfy` | `CColumnDesc`, `as_enum`, `as_set`; delivered decimals, enums and sets |
| `Dispatcher.dfy`, `LayoutCache.dfy` | `CLogParser` and its loop; trusting a cached layout against parsing every map |
| `Replication.dfy`, `Framing.dfy`, `Stream.dfy` | reconnection and delivery; events as packets; the whole path |
| `Session.dfy` | the event loop given the packets of a session |

## How the code is modelled

- `CTable`, `CRowLogEvent`, `CLogParser` and `CColumnDesc` are classes. Every method that changes one is proved against
  a function of the old state, and the theorems are about those functions. `CValue` is copied field by field wherever
  it is stored, so it is a datatype; so are packets, layouts and callbacks.
- A pointer into a packet is an offset. The length of an event is kept apart from the bytes that may be read: reads are
  not cut off at the end of an event, and nothing is assumed about what lies there. Arguments changed through pointers
  are results.
- `size_t len` wraps at 2^64 and is read back as a signed number where the code does that; extents wrap at 2^32; the
  width of a bitmap is cut to 8 bits; the population count is packed into, and never stripped from, the column mask.
- Reads with no meaning in C++ get a fixed one: a byte outside all memory, a digit count outside the table of
  `dig2bytes` and metadata past the end of its block read as 0. `assert(0)` counts as the error return that follows it,
  and the multiplication of a trailing decimal group wraps at 32 bits.
- A `CTable*` is the place of the table in the watch list, the pair of lower-case names. Names compare as `strcasecmp`
  compares ASCII.

## What the proofs found

- The constant of the mask accessors has sixteen hexadecimal Fs, so they return the count byte along with the bits
  (`RowEvents.PackedMask`). It does no harm up to 48 columns, and is visible to a test of bits 56 to 63
  (`RowEvents.CountByteIsVisible`).
- The width of a bitmap is cut to 8 bits. Counts of 49 to 2048 columns are refused as they should be; from 2049 on,
  exactly the counts whose width modulo 256 is 1 to 6 are accepted, and read from that many bytes
  (`RowEvents.MaskAccepted`, `RowEvents.MaskWidthWraps`).
- The row loop turns forever exactly when bytes are left, their number has not wrapped, and no bitmap that the loop
  uses has a bit set (`Tables.LoopEnds`).
- A V2 rows event whose extra length is below 2 sends the reader more than 64 KB ahead (`RowEvents.ShortExtra`).
- The leading group of a packed decimal is checked against one digit more than it has, and the product of a trailing
  group can wrap into range, so that fields no master writes are accepted (`Decimals.GroupAccepted`).
- A length-encoded number of 2^32 or more loses its high half (`RowEvents.LengthRoundTrip`).
- The extent of a BLOB whose 4-byte length is at least 2^32 - 4 wraps (`Values.SliceEndsAtExtent`). The slices of a row
  are in order and disjoint exactly when no decoded column does that (`RowImages.SlicesInOrder`); `RowImages.WideBlobWraps`
  is a row on which they are not.
- Values of earlier rows and events stay out of the rows of an event exactly when the event has at least as many columns
  as the working row of its table; otherwise the columns past the event's keep what they held
  (`Tables.RowsForgetExactly`).
- Null bits are looked up by column index. For a partial row image that is the right bit, for every bitmap, exactly
  when the columns of the image come first in the table (`RowEvents.NullBitLookup`). Such images are read back if the
  set bits of the column bitmap, padding included, round up to as many bytes as the columns do; otherwise the null
  bitmap is read at another width (`RowImages.BitmapTaken`). For full images any padding will do
  (`Framing.FullRowsRoundTrip`).
- Enum and set names with a quote in them are cut at the quote (`Variants.VariantsRoundTrip`); sets of more than four
  bytes come out empty (`Variants.SetRoundTrip`).
- Recorded ids are keyed by the bare, case-sensitive table name, tables by case-insensitive names. A map leaves its
  table with its layout, in every run, exactly when each map is the first of its table, repeats the table's layout, or
  gives its bare name an id other than the one recorded for it (`LayoutCache.CacheIsExact`). Two databases may hold
  tables of the same name without harm. A map under a second spelling without a recorded id, or one that reuses its id
  for another layout, is not parsed: the table keeps the old layout, refuses rows events under another id than that
  layout's, and the callback repeats the rows of the event before (`LayoutCache.StaleMap`). In
  `Stream.RespeltLogLosesRow` three events lose a row that way.

## Model

| member | source | states |
|---|---|---|
| Values.FieldRoundTrip | src/mysqlslave/value.cpp:41-348 | for every supported column type and metadata, reading a printed field takes exactly the printed bytes, at least one, and yields exactly the printed value, its real type and its metadata |
| Values.SliceEndsAtExtent | src/mysqlslave/value.cpp:259-348 | whatever the bytes, the slice of a decoded value starts inside the field's extent and ends where it ends, each if and only if the field is not a BLOB whose 4-byte length makes the extent wrap |
| Values.PrefixedExtent | src/mysqlslave/value.cpp:152-183 | for the variable-length types, extent and slice are both read off one length prefix of the width the metadata gives |
| Values.DecodedNull | src/mysqlslave/value.cpp:253-348 | of all types and metadata, a decoded value reads as null if and only if its type is NULL, or it is a STRING of a subtype that is not handled, or a BLOB whose length has no width of 1 to 4 |
| Values.NotSupported | src/mysqlslave/value.cpp:108-185 | why some types are left out: JSON has no bound, TIME2 always three bytes, and the slices of the other BLOB types begin with the length |
| RowEvents.MaskAccepted | src/mysqlslave/logevent.cpp:393-442 | for every column count a bitmap is read if and only if its width, cut to 8 bits, is 1 to 6, with data and length moved by that width; that is the answer for 1 to 48 columns if and only if there are at most 48 or the bitmap is refused |
| RowEvents.MaskPacking | src/mysqlslave/logevent.cpp:393-442 | for every column count, whenever a bitmap is read, bit i is bit i mod 8 of byte i div 8; up to 2040 columns that is for 1 to 48, whose columns are all in the bitmap |
| RowEvents.MaskWidthWraps | src/mysqlslave/logevent.cpp:396-396 | 2049 is the first count past 48 that is accepted, with a bitmap of one byte |
| RowEvents.UpdateN1Bits | src/mysqlslave/logevent.cpp:379-391 | the counting loop puts the population count above the low 56 bits |
| RowEvents.PackedMask | include/mysqlslave/logevent.hpp:500-503 | for 48 columns or fewer the count accessor gives the exact population count, and every bit below 56 of the mask accessor is still the bitmap's |
| RowEvents.CountByteIsVisible | include/mysqlslave/logevent.hpp:500-502 | the mask accessor strips nothing: bits 56 to 63 are those of the count |
| RowEvents.PaddingIndependence | src/mysqlslave/logevent.cpp:379-396 | for a full image of 1 to 48 columns and any padding bits, the width computed from the population count is that of the table's bitmap |
| RowEvents.NullBitLookup | src/mysqlslave/database.cpp:69-141 | looking a null bit up by column index agrees with its rank among the columns of the image, for every null bitmap, if and only if those columns are an initial segment |
| RowEvents.LengthRoundTrip | src/mysqlslave/logevent.cpp:256-281 | a length-encoded number is skipped exactly, and read back if and only if it is below 2^32 |
| RowEvents.NullCount | src/mysqlslave/logevent.cpp:264-272 | a column count of NULL is the largest number, and no bitmap is read for it |
| RowEvents.ShortExtra | src/mysqlslave/logevent.cpp:343-352 | an extra length below its own two bytes sends the pointer 65534 bytes or more ahead |
| RowEvents.ParsedAdvances | src/mysqlslave/logevent.cpp:323-377 | a tuned event lets the row loop progress if and only if a bitmap that the loop uses has a bit set |
| RowEvents.RowLogEvent.Tune | src/mysqlslave/logevent.cpp:323-377 | the reused event object holds exactly the parsed event, and is invalid exactly when a bitmap cannot be read |
| RowEvents.RowLogEvent.TuneHead | src/mysqlslave/logevent.cpp:327-359 | the moving pointer picks up type, id, flags, the extra data of V2 events and the column count |
| RowEvents.RowLogEvent.TuneBody | src/mysqlslave/logevent.cpp:361-376 | one bitmap, two for an update, and the rest of the event without its checksum is the body |
| Tables.ImageConsumes | src/mysqlslave/database.cpp:67-83 | reading an image never adds to the remaining length; it takes something off if the population count is 1 to 48, even when the unsigned subtraction wraps; otherwise it moves nothing, and ends the event only if the length is negative as a signed number |
| Tables.LoopStandsStill | src/mysqlslave/database.cpp:67-83 | an iteration of the row loop takes something off and stays on its way to the end, or ends where it began, and `EndsFrom` says which |
| Tables.LoopEnds | src/mysqlslave/database.cpp:67-83 | for every event and byte string, repeating the iteration reaches length 0 if and only if nothing is left, the length has wrapped past 2^63, or an image of the event has a usable population count |
| Tables.RowsShape | src/mysqlslave/database.cpp:67-83 | for every byte string on which the loop ends: no new rows for insert and delete, and for update at most one old row without its new one |
| Tables.RowsKeepShape | src/mysqlslave/database.cpp:86-147 | for every byte string the working row keeps its width and each value its column position |
| Tables.ExhaustedIsNull | src/mysqlslave/database.cpp:99-105 | once the bytes have run out, every later column is null and nothing is consumed, whatever the bitmaps say |
| Tables.MetadataPairing | src/mysqlslave/database.cpp:94-142 | whichever columns before it are null or unused, a column is null or decoded with its own type and metadata, and only if it is in the image and not null |
| Tables.RowsForgetExactly | src/mysqlslave/database.cpp:67-142 | for every event with bytes on which the loop ends: its rows do not depend on what the working row held before if and only if the event has at least as many columns as the working row |
| Tables.Table.Tune | src/mysqlslave/database.cpp:31-50 | nothing while the table is tuned; else the map is parsed, and a usable layout is cached with the working row resized to it |
| Tables.Table.TuneRow | src/mysqlslave/database.cpp:38-45 | the loop gives every value of the resized working row its position and the type of its column |
| Tables.MapUsable | src/mysqlslave/database.cpp:36-47 | a parsed map tunes the table if and only if it names a database and a table and has columns; rows already delivered stay |
| Tables.Table.TuneMap | src/mysqlslave/logevent.cpp:283-317 | the moving pointer picks up id, names, types and metadata from the table's copy of the map |
| Tables.Table.Update | src/mysqlslave/database.cpp:52-84 | an event with another id changes nothing; else old and new rows are exactly those the row loop reads, and no byte is left |
| Tables.Table.ReadOne | src/mysqlslave/database.cpp:69-70 | one null bitmap, of the width its population count gives, then one row image |
| Tables.Table.UpdateRow | src/mysqlslave/database.cpp:86-147 | the three cursors stay in step: the row is the columns decoded with the metadata and the bits of their own index, and a negative rest is clamped to 0 |
| Tables.Table.UpdateColumn | src/mysqlslave/database.cpp:101-141 | one column is reset or decoded, and both cursors move past it |
| Tables.Table.SetTuned | include/mysqlslave/database.hpp:108-111 | only the mark of the cache changes |
| RowImages.ColumnsRoundTrip | src/mysqlslave/database.cpp:99-142 | for every layout of 1 to 48 supported columns and every choice of nulls, the columns of a printed image are read back, null for NULL, and all their bytes are used |
| RowImages.ImageRoundTrip | src/mysqlslave/database.cpp:69-70 | the same with the null bitmap in front, for images of all columns or of the first ones, whatever the padding of the null bitmap; a column left out is null |
| RowImages.BitmapTaken | src/mysqlslave/database.cpp:69-69 | reading takes the bytes of a null bitmap of k columns if and only if the population count rounds up to as many bytes as k |
| RowImages.RowsRoundTrip | src/mysqlslave/database.cpp:52-147 | for every layout of 1 to 48 supported columns and every list of rows or of old and new rows, as images of all columns or of the first ones, reading the printed body gives exactly those rows, in order and on their own side, also when the last row is all null |
| RowImages.SlicesInOrder | src/mysqlslave/database.cpp:99-142 | for every supported layout, whatever the bytes and bitmaps: the slices of successive columns are disjoint, in order and inside what was consumed if and only if no decoded column is a BLOB whose 4-byte length makes its extent wrap |
| RowImages.WideBlobWraps | src/mysqlslave/value.cpp:175-177 | a row with a stored length of 2^32 - 4, on which the slice leaves what was consumed |
| Columns.BlockHolds | src/mysqlslave/value.cpp:15-39 | cutting the metadata block up by the sizes of the types gives each declared column exactly the bytes written for it |
| Columns.DeclaredLayout | src/mysqlslave/value.cpp:15-189 | every declared table of 1 to 48 columns, of any supported kind, has a layout that the reader understands |
| Columns.DeclaredForm | src/mysqlslave/value.cpp:152-348 | a value of a declared column is printed behind a length of the declared width, or none, and is read as ENUM, SET or the column's own type |
| Columns.AdmittedFits | src/mysqlslave/value.cpp:41-189 | every value that a declared column admits, by its length, bits, digits or precision, is one that the reader's extent and prefix rules fit |
| Columns.DeclaredRows | src/mysqlslave/database.cpp:52-147 | hence for every declared table and every list of rows its columns admit, reading the printed body gives exactly those rows |
| Decimals.DecimalExtent | src/mysqlslave/value.cpp:50-62 | the groups hold all digits, are as wide together as `calc_field_size` says, are ceil(intg/9) + ceil(frac/9) in number, and fit the word buffer |
| Decimals.ComplementSymmetry | src/mysqlslave/value.cpp:426-583 | whatever the bytes, complementing a field leaves acceptance, digit counts and every word as they were and flips the sign |
| Decimals.KeptIsSuffix | src/mysqlslave/value.cpp:492-519 | only zero words are stripped, and the first integer word kept is not zero |
| Decimals.GroupAccepted | src/mysqlslave/value.cpp:486-580 | for any bytes of a group, complemented or not: which are accepted, exactly, for leading, whole and trailing groups |
| Decimals.DecimalRoundTrip | src/mysqlslave/value.cpp:419-592 | a packed number of any precision, scale and sign is accepted; its sign and scale come back, its integer and fractional words have exactly the value of its digits, and the digits dropped from `intg` are leading zeros |
| Decimals.OrderPreserved | src/mysqlslave/value.cpp:453-583 | for numbers of one precision and scale, no negative zero, the byte order of the packed forms is the numeric order |
| Decimals.DecodedOrder | src/mysqlslave/value.cpp:419-592 | hence comparing packed fields byte by byte compares the numbers decoded from them, across signs and groups |
| DecimalReader.NeverShortened | src/mysqlslave/value.cpp:433-447 | with a precision of at most 255 the truncation and overflow branches are never taken |
| DecimalReader.ReadInt | src/mysqlslave/value.cpp:390-406 | the 1 to 4 byte reads give the two's-complement value of the bytes, the first one flipped at the start of the field |
| DecimalReader.StoreGroup | src/mysqlslave/value.cpp:453-583 | one group is unmasked, scaled if trailing, written to its word and range-checked |
| DecimalReader.IntWords | src/mysqlslave/value.cpp:453-520 | the leading group and the integer loop leave the kept words in the buffer and stop at the first group out of range |
| DecimalReader.FracWords | src/mysqlslave/value.cpp:524-583 | the fractional loop and the trailing group append one word per group |
| DecimalReader.InitDecimal | src/mysqlslave/value.cpp:419-592 | the whole function succeeds exactly when the format is accepted, with its sign, counts and words, and stops at the end of the field's extent |
| Variants.ColumnDesc.Update | include/mysqlslave/columndesc.hpp:24-43 | the loop terminates, and the list is exactly the quoted pieces of an enum or set text, else empty |
| Variants.VariantsRoundTrip | include/mysqlslave/columndesc.hpp:24-43 | the names of a printed enum or set type come back if and only if none of them contains a quote |
| Variants.OtherTypeHasNone | include/mysqlslave/columndesc.hpp:28-28 | the text of any other type gives no names, whatever quotes are in it |
| Variants.SetNamesOfBits | src/mysqlslave/value.cpp:888-905 | whatever number is stored, the names are those of its bits that have one, in definition order |
| Variants.NothingChosen | src/mysqlslave/value.cpp:846-905 | NULL, a value of another type, and one of no width or more than four bytes give the empty name and no names |
| Variants.AsSet | src/mysqlslave/value.cpp:888-905 | the shifting loop yields the names of the set bits in definition order, cut at the first bit without a name |
| Variants.SetRoundTrip | src/mysqlslave/value.cpp:846-905 | a subset stored in k bytes comes back as exactly its names in definition order if and only if k is at most 4 or the subset is empty |
| Variants.EnumRoundTrip | src/mysqlslave/value.cpp:846-874 | any index of up to 4 bytes comes back as its name, counted from one; index 0, an index past the last name, and wider values have no name |
| ColumnValues.DecimalColumn | src/mysqlslave/value.cpp:594-600 | a decimal written to a column is delivered as a value whose metadata and bytes decode to the number written |
| ColumnValues.SetColumn | src/mysqlslave/value.cpp:888-905 | a subset written to a set column of up to four bytes is delivered as its names, NULL as none |
| ColumnValues.EnumColumn | src/mysqlslave/value.cpp:862-874 | an index written to an enum column is delivered as its name, NULL as the empty name |
| Dispatcher.FoldedAlike | include/mysqlslave/database.hpp:20-26 | two names find the same database or table if and only if they differ at most in the case of ASCII letters |
| Dispatcher.KeysAlike | src/mysqlslave/logparser.cpp:254-258 | two pairs of names lead to one table if and only if the databases are alike and the tables are alike |
| Dispatcher.WatchingWanted | src/mysqlslave/logparser.cpp:385-399 | a table is watched if and only if a pair alike to its database and name was given to `watch` |
| Dispatcher.WatchedMore | src/mysqlslave/logparser.cpp:385-399 | watching one more pair fills its place with a fresh table and leaves the others alone |
| Dispatcher.CodeRead | include/mysqlslave/logevent.hpp:153-168 | of the type byte that a master writes for inserts, updates and deletes, in either version, the reader finds out that it is a rows event, of which kind, and in which version |
| Dispatcher.CodesAreRows | src/mysqlslave/logparser.cpp:288-329 | the rows events are exactly these six types |
| Dispatcher.ThrowsOn | src/mysqlslave/logparser.cpp:209-333 | the loop throws on a packet if and only if its length or type is wrong, or it is a rows event whose bitmaps cannot be read |
| Dispatcher.LogParser.constructor | include/mysqlslave/logparser.h:19-72 | a new parser watches nothing, maps nothing and is not connected |
| Dispatcher.LogParser.Watch | src/mysqlslave/logparser.cpp:385-399 | the method does what `WatchedMore` speaks of, and nothing for an empty name or a table already watched in any letter case |
| Dispatcher.LogParser.OneTableWritten | include/mysqlslave/database.hpp:124-148 | writing through one `CTable*` changes that table and no other |
| Dispatcher.LogParser.DispatchMap | src/mysqlslave/logparser.cpp:251-287 | a map of an unwatched table changes nothing; else both id maps are updated, the cache mark is cleared exactly when the id recorded for the bare name differs, and the table is tuned |
| Dispatcher.LogParser.CallBack | src/mysqlslave/logparser.cpp:288-347 | a rows event goes to the table its id was last mapped to and causes one callback with that table's rows; an unknown id causes none, whatever the event |
| Dispatcher.LogParser.MakeCall | src/mysqlslave/logparser.cpp:288-347 | write events of both versions reach `on_insert` with the rows, update events `on_update` with new and old rows, delete events `on_delete` |
| Dispatcher.LogParser.DispatchRows | src/mysqlslave/logparser.cpp:288-347 | the same from the packet; an event that cannot be tuned makes the loop throw and changes nothing |
| Dispatcher.LogParser.DispatchPacket | src/mysqlslave/logparser.cpp:205-360 | each packet makes the step its type calls for: positions are stored by rotations, queries and other events only, never by format descriptions, maps or rows events |
| Dispatcher.LogParser.DispatchEvents | src/mysqlslave/logparser.cpp:184-373 | the loop makes the steps of all packets up to the first lost read or bad packet, and only a lost read clears the connected flag |
| Dispatcher.LogParser.Reconnect | src/mysqlslave/logparser.cpp:46-159 | a dump is requested from the stored position or, without one, not at all; the flag stays set when only the request fails |
| LayoutCache.MappedTable | src/mysqlslave/logparser.cpp:251-287 | in every state of a run, a map of a watched table leaves the table with its layout if and only if it is fresh, a matter of the maps before it; else the table is left as it was |
| LayoutCache.StepIsTracked | src/mysqlslave/logparser.cpp:251-346 | while maps are fresh, both id maps and every table's mark, layout and row width are exactly those of the maps so far |
| LayoutCache.CacheIsExact | src/mysqlslave/logparser.cpp:261-286 | for every run of parsable maps, whatever their ids, names and spellings: every map leaves its table with its layout if and only if every map is fresh |
| LayoutCache.TwoMaps | src/mysqlslave/logparser.cpp:262-268 | two maps of one table do so if and only if their layouts are equal, or the second has the same spelling and another id |
| LayoutCache.StaleMap | src/mysqlslave/database.cpp:58-59 | after a map that is not fresh the table keeps the old layout; a rows event under the map's id, if it is another one, is refused, and the callback repeats the rows before it |
| LayoutCache.SecondSpelling | include/mysqlslave/logparser.h:19-22 | from the start, every run of two maps of a table under two spellings and ids and a rows event under the second makes a callback without rows, where parsing every map gives rows |
| LayoutCache.RunAgrees | src/mysqlslave/logparser.cpp:251-346 | from any related states, while maps are fresh, the loop that trusts cached layouts and the one that parses every map stay related: same layouts, rows, ids, position and callbacks |
| LayoutCache.CacheRefinement | src/mysqlslave/logparser.cpp:251-346 | hence on every run of fresh maps both make the same callbacks with the same rows |
| LayoutCache.AssumptionsSuffice | src/mysqlslave/logparser.cpp:251-287 | if an id stands for one table and layout and a table is always spelt the same, every map is fresh, even with tables of one name in two databases |
| LayoutCache.ReachableState | include/mysqlslave/logparser.h:19-20 | in every reachable state a table is tuned only by one of its maps whose name has a recorded id, and holds its layout; a recorded id is held by a tuned table and leads to it; every id leads to a table it was given to |
| LayoutCache.StepKeepsInv | src/mysqlslave/logparser.cpp:220-360 | under these assumptions every step, in any session, keeps the state that of some history of the log's maps |
| LayoutCache.StepKeepsCurrent | src/mysqlslave/logparser.cpp:267-279 | every watched table holds the layout of its latest map, and that map's id leads to it |
| LayoutCache.RowsMeetTheirLayout | src/mysqlslave/database.cpp:58-59 | a rows event under the current id of its table never takes the id-mismatch exit; it causes one callback, with the rows read under the layout it was written with, if the table is watched and none otherwise |
| LayoutCache.UnmappedRows | src/mysqlslave/logparser.cpp:294-295 | a rows event whose id no map mentions changes nothing |
| Replication.RowsDelivered | src/mysqlslave/logparser.cpp:288-347 | in a session that started safely a rows event makes exactly the callback it should, and meets what the row loop needs |
| Replication.DeliverResumes | src/mysqlslave/logparser.cpp:142-159 | after every dispatched event the stored position is the start of an event, no later than what was dispatched, that splits no group |
| Replication.NextKeepsInv | src/mysqlslave/logparser.cpp:184-203 | deliveries, lost connections, reconnections, failed dump requests and repeated rotations all keep the invariant of the client |
| Replication.AtLeastOnce | src/mysqlslave/logparser.cpp:46-373 | under any schedule: the stored position is never past what was dispatched and never between a map and its rows events; every event that was passed was dispatched; the callbacks are exactly those of the dispatched events, each dispatch having made its own in its place |
| Replication.CatchesUp | src/mysqlslave/logparser.cpp:46-53 | from any state the client can be in, one more reconnection that is not cut short delivers the rest of the log |
| Replication.NextEventFits | src/mysqlslave/database.cpp:67-102 | under any schedule the next rows event, if it reaches a table, ends the row loop and has no more columns than the working row |
| Replication.SessionIsRun | src/mysqlslave/logparser.cpp:184-373 | whatever the client went through before, delivering any number of further events is running the loop on them, and each meets what the loop needs |
| Framing.PacketRoundTrip | src/mysqlslave/logparser.cpp:205-214 | a printed packet passes the sanity check, and its type, length, log position and payload are found |
| Framing.MapRoundTrip | src/mysqlslave/logevent.cpp:208-317 | a printed table map is parsed back to its id, names, types and metadata, and the static accessors agree with the parsed fields |
| Framing.HeadRoundTrip | src/mysqlslave/logevent.cpp:327-359 | id, flags and column count of a printed rows event are recovered, past the extra data that V2 events of every kind have and V1 events have not, whatever its bitmaps |
| Framing.LeadingValue | src/mysqlslave/logevent.cpp:379-396 | a printed bitmap is one that the reader sizes right, as a mask, if and only if its bits are those of the first k columns and its set bits, padding included, round up to the bytes of k |
| Framing.RowsFrameRoundTrip | src/mysqlslave/logevent.cpp:323-377 | tuning a printed V1 or V2 insert, update or delete of 1 to 48 columns, with any bitmaps, two for an update and one otherwise, with or without checksum, recovers its id, its masks with their counts, and exactly its body |
| Framing.RowsEventRoundTrip | src/mysqlslave/logevent.cpp:323-377 | a whole rows event with images of the first columns, tuned and read, yields the rows that were printed |
| Framing.FullRowsRoundTrip | src/mysqlslave/logevent.cpp:323-377 | the same for full images, whatever the padding bits of both column bitmaps and of the null bitmaps |
| Stream.PrintedIsRecognized | src/mysqlslave/logparser.cpp:205-360 | every event a master prints is taken by the loop for what it is |
| Stream.QueryStored | src/mysqlslave/logevent.cpp:181-187 | the position of a query is stored if and only if its status block is there and has at most 638 bytes |
| Stream.StreamWellFormed | src/mysqlslave/logparser.cpp:220-360 | a log as a master writes it meets every assumption the results above make about the events |
| Stream.CallsShow | src/mysqlslave/logparser.cpp:288-347 | a written rows event calls for one callback, of the kind that was written, that shows its rows if its table was asked for, and for none otherwise |
| Stream.WrittenRowsAreDelivered | src/mysqlslave/logparser.cpp:172-376 | what was written is what is delivered: for every log, list of tables, start and schedule of lost connections, each event that the client got past was sent to it, and the callbacks made since the start are, one for each rows event of a listed table it was sent and in that order, callbacks of the written kind that show exactly the written rows |
| Stream.SmallLogOk | src/mysqlslave/logparser.cpp:251-307 | the assumptions can be met by a log with rows in it |
| Stream.RespeltLogLosesRow | include/mysqlslave/logparser.h:19-22 | a log of three events, in bytes, under two spellings of a table: the inserted row is missing from the callback |
| Session.SentAccepted | src/mysqlslave/logparser.cpp:188-214 | the loop takes the packets of a log for its events, all of them, and then finds the connection lost |
| Session.ReadSession | src/mysqlslave/logparser.cpp:184-376 | the loop may be given the next packets of a session in any state of the client, and ends, disconnected, in the client's state after as many deliveries |
| Session.ResumeSession | src/mysqlslave/logparser.cpp:46-373 | the same from a reconnection on: dump request at the stored position, greeting, events, loss |

## Left out

What the contracts above do not cover:

- Values.FieldRoundTrip: columns of type JSON, TIME2, VAR_STRING, DECIMAL, GEOMETRY, the TINY, MEDIUM and LONG BLOB types, fractional TIMESTAMP2, and STRING with another subtype than STRING, ENUM or SET are outside `Supported`; the code gives them an extent or a slice that is not that of the value (`Values.NotSupported`), or reads them as null. A STRING of up to 255 bytes and its 1-byte length is printed whatever the declared length, as the code reads one from rows; lengths above 255 need metadata bits that the code does not unpack.
- Values.SliceEndsAtExtent: the same column types.
- Columns.DeclaredLayout: what the master writes for a column is taken from the widths and comments of `calc_field_size`; the packing of CHAR lengths above 255 into the metadata is not part of this model.
- RowImages.RowsRoundTrip: images of all columns or of the first ones; for others `RowEvents.NullBitLookup` shows that some null bitmap is read wrong. Columns of width zero are excluded, because a zero-width value at the end of the body reads as null (`Tables.ExhaustedIsNull`).
- Tables.Table.Update: asks, of an event with the table's id, that the row loop ends and that the event has no more columns than the working row; the code loops forever or writes past the row otherwise. `Tables.LoopEnds` and `RowEvents.ParsedAdvances` say when it ends, `Replication.NextEventFits` that a well-formed log always meets both. The step functions leave the state as it is on an event that a table gets stuck on; the methods of the loop are not called with one.
- Decimals.DecimalRoundTrip: precision 0 is excluded; a field without bytes has no sign.
- DecimalReader.InitDecimal: stops at the decoded words; `decimal2double` and `decimal2string` are not part of this model.
- Framing.MapRoundTrip: names of 255 bytes are excluded, because they do not fit the buffers they are copied to.
- Dispatcher.LogParser.DispatchEvents: one session after another. The reads of a session are a sequence, a lost read ends it, and `Reconnect` is a method of its own; the hooks around a reconnection, the delay and `stop_event_loop` are not modelled.
- Dispatcher.LogParser.DispatchPacket: a rotation too short for a name sets an empty one; of a query only the checks that decide the stored position are modelled, not the copy of its text.
- LayoutCache.CacheRefinement: assumes that maps can be parsed, that each is fresh, and that rows events have the columns of their table. That maps are fresh is exact for the layouts; callbacks may still agree by chance when one is not.
- Replication.AtLeastOnce: assumes that an id stands for one table and layout in the log, that a table is always spelt the same, that rows events have the columns of their table, and that nothing that carries a position comes between a map and its rows events. The events of a log start at different places; a rotation that repeats where the master is reading is a move of its own, not an event of the log. The greeting after a reconnection is taken to be read as it was sent: the code asks for checksums once, in `prepare`, and expects four bytes at the end of every rotation from then on, so a master that sends its greeting without them is outside it. Heartbeats, which carry the position of another event, are outside it.
- Stream.WrittenRowsAreDelivered: the same assumptions, as `StreamOk`. Every rows event has at most 48 columns, also those of unwatched tables: the loop throws on a wider one before it looks at the table.

What the repository does that is not modelled:

- connecting, authentication, SQL queries, the network, and `build_db_structure` with the lookup of columns by name
- verification of the CRC32 checksum, which follows the callback; its four bytes are framed, and taken to match
- the checksum setting of the session, which is made once and not again on a reconnection
- JSON values: the reads of inline values are commented out in the source
- `as_datetime2`, `as_timestamp`, fractional times, and the plain scalar accessors; such fields are carried as bytes
- the header fields (time, server, flags) that a table keeps from its latest map
- threads, signals, debug output, exception texts, the test daemon and packaging
