# SAMD51 HID injector firmware — verified model of its parsers, cache and serialisers

This project is a Dafny model of the data-handling core of a SAMD51 HID-injector firmware.

The firmware takes text commands over USB CDC-ACM, such as `nozen.move(10,-5)` or `nozen.recoil.add(name){x,y,delay,…}`. It turns them into INJECT_MOUSE frames for an FPGA, which sits on the USB path between a real mouse or keyboard and the host. The FPGA forwards the HID report descriptor of every device it sees as a `[DESC:aa:i]{hex…}` line. The firmware decodes that hex, parses the descriptor into report fields and device-type flags, and keeps the result in a small LRU cache.

The model covers six Rust files:

- `descriptor.dfy` (`descriptor.rs`): class `DescriptorParser` over a value `ParserState`; the item loop is a `while` loop.
- `descriptor_cache.dfy` (`descriptor_cache.rs`): class `DescriptorCache` over a `seq` of entries and a clock.
- `protocol.dfy` (`protocol.rs`): the command helpers, the UART frame, the line buffer and the hex-blob loop; class `CommandProcessor`.
- `recoil.dfy` (`recoil.rs`): class `RecoilManager` over a `map`, and the text parsers.
- `state.dfy` (`state.rs`): class `MouseState`.
- `hid.dfy` (`hid.rs`): the keyboard and mouse report datatypes and their byte layouts.

`common.dfy` holds the machine-integer subset types (`u8`, `u16`, `u32`, `i8`, `i16`, `i32`), `Option`/`Result` and `position`-style search. `decimal.dfy` holds the ASCII-decimal helpers that `parse_int`, `parse_i16` and `parse_u8_from_slice` share. `descriptor_examples.dfy` and `descriptor_cache_examples.dfy` prove the firmware's own unit-test scenarios.

The structure follows one pattern throughout. Every stateful Rust struct becomes a Dafny class whose fields are the struct's fields, except `CommandProcessor`'s `recoil_manager` (see Left out). Every method that changes them is specified by a pure function of the old state: for example `State() == ParseRun(data, old(State())).value`. The properties the firmware relies on are then proved as lemmas about those functions.

The parser follows the item grammar of the USB Device Class Definition for HID 1.11 (main, global and local tags in sections 6.2.2.4, 6.2.2.7 and 6.2.2.8; Input flag bits in section 6.2.2.5). The keyboard report follows the boot-keyboard layout of Appendix B.1 of the same document. The firmware departs from the standard in three places, and the model follows the code:
- A header with `bSize == 3` is read as a long item whose next byte is the payload length. Section 6.2.2.2 says it means four data bytes.
- Logical Minimum and Logical Maximum are not sign-extended from their payload width. A one-byte `0x81` is stored as 129.
- Usage Minimum and Usage Maximum are ignored, so every field of an Input item carries the last Usage seen.

Two details of the code are kept as written:
- A constant (padding) Input item advances the bit offset but updates neither size table, because it returns before `update_report_size`.
- `parse_recoil_add` ignores a trailing comma and reads an empty piece between two commas as 0.

## Model

| member | source | states |
|---|---|---|
| Descriptor.UsagePageFrom | firmware/samd51_hid_injector/src/descriptor.rs:41-60 | codes 0x01–0x0D give the named pages and any other code gives `Unknown`; the page's code is always the input code |
| Descriptor.UsagePageRoundTrip | firmware/samd51_hid_injector/src/descriptor.rs:41-60 | page → code → page is the identity for every page the conversion can produce |
| Descriptor.HeaderSplit | firmware/samd51_hid_injector/src/descriptor.rs:148-150 | header = size + 4·type + 16·tag, with size and type below 4 and tag below 16: the three fields split the byte exactly |
| Descriptor.PayloadValue | firmware/samd51_hid_injector/src/descriptor.rs:169-173 | length 0 gives 0; lengths 1, 2 and 4 are little-endian: byte k of the payload is (value / 256^k) mod 256, and a 2-byte value stays below 65536 |
| Descriptor.LittleEndian4 | firmware/samd51_hid_injector/src/descriptor.rs:169-173 | each of the four bytes of a 4-byte payload is recovered from its place in the value |
| Descriptor.ReadItem | firmware/samd51_hid_injector/src/descriptor.rs:143-167 | size 3 takes the next byte as the payload length; the item fails with `UnexpectedEnd` exactly when the length byte or the payload runs past the end; otherwise the payload lies after the header and inside the data |
| Descriptor.AsI32 | firmware/samd51_hid_injector/src/descriptor.rs:345-348 | the i32 with the same 32 bits as the u32 |
| Descriptor.SignExtend | firmware/samd51_hid_injector/src/descriptor.rs:345-348 | with a width of 32 the value is reinterpreted, not sign-extended |
| Descriptor.LogicalBoundsAreReinterpreted | firmware/samd51_hid_injector/src/descriptor.rs:209-220 | Logical Minimum with one payload byte 0x81 sets 129; only a 4-byte 0xFFFFFF81 gives −127 |
| Descriptor.AfterGlobal | firmware/samd51_hid_injector/src/descriptor.rs:209-220 | a global item changes only the six current global values (page, bounds, size, count, id); any tag other than 0, 1, 2, 7, 8 and 9 changes nothing |
| Descriptor.AfterLocal | firmware/samd51_hid_injector/src/descriptor.rs:223-229 | a local item changes at most the current usage |
| Descriptor.WithReportSize | firmware/samd51_hid_injector/src/descriptor.rs:293-309 | the table grows by at most one row, only while below 8 rows, and that row is (id, bytes); existing rows keep their ids and never shrink |
| Descriptor.CeilBytes | firmware/samd51_hid_injector/src/descriptor.rs:294-295 | the fewest bytes that hold the bits |
| Descriptor.IdIndex | firmware/samd51_hid_injector/src/descriptor.rs:304 | the first row with the report id, or the table length when there is none |
| Descriptor.WithReportSizeEffect | firmware/samd51_hid_injector/src/descriptor.rs:293-309 | a known id's row becomes max(old, new); an unseen id is appended while the table has fewer than 8 rows and is dropped otherwise; other ids' rows are unchanged |
| Descriptor.WithReportSizeWf | firmware/samd51_hid_injector/src/descriptor.rs:293-309 | a size table keeps at most 8 rows with distinct report ids |
| Descriptor.FieldRun | firmware/samd51_hid_injector/src/descriptor.rs:243-261 | the fields one Input item emits: exactly report-count of them |
| Descriptor.FieldRunStep | firmware/samd51_hid_injector/src/descriptor.rs:243-261 | the first emitted field sits at the current offset and the rest follow from an offset advanced by the report size |
| Descriptor.PushFields | firmware/samd51_hid_injector/src/descriptor.rs:243-262 | the push loop can fail only with `TooManyFields` |
| Descriptor.PushFieldsFails | firmware/samd51_hid_injector/src/descriptor.rs:243-262 | the push loop fails, with `TooManyFields`, exactly when the fields would pass 64 |
| Descriptor.PushFieldsClosedForm | firmware/samd51_hid_injector/src/descriptor.rs:243-262 | a successful push loop appends k fields at offsets o, o+s, …, o+(k−1)s, sharing page, usage, id, bounds and flags, and leaves the offset at o+k·s |
| Descriptor.AfterInput | firmware/samd51_hid_injector/src/descriptor.rs:232-268 | an Input item can only fail, with `TooManyFields`, when it is a data item |
| Descriptor.InputItemEffect | firmware/samd51_hid_injector/src/descriptor.rs:232-268 | a constant Input only advances the offset by size·count; otherwise it fails iff more than 64 fields would exist, or appends the field run, sets the input-size row to ⌈offset/8⌉ and ends at o+k·s |
| Descriptor.NonInputItemsEmitNothing | firmware/samd51_hid_injector/src/descriptor.rs:197-229 | every item other than Input succeeds, emits no field and leaves the input table alone; only Output changes the descriptor; Output and Feature advance the offset by size·count |
| Descriptor.ParseStep | firmware/samd51_hid_injector/src/descriptor.rs:143-188 | each loop iteration consumes at least the header byte and stays within the data, so the loop terminates |
| Descriptor.ParseItems | firmware/samd51_hid_injector/src/descriptor.rs:141-188 | the item loop never fails with `InvalidData`: its only errors are `UnexpectedEnd` and `TooManyFields` |
| Descriptor.ParseDescriptor | firmware/samd51_hid_injector/src/descriptor.rs:141-194 | a parse never fails with `InvalidData`, and the empty descriptor parses to the empty `HidDescriptor` |
| Descriptor.ParseItemsKeepsFlags | firmware/samd51_hid_injector/src/descriptor.rs:141-188 | the item loop never sets a device-type flag |
| Descriptor.ParsedFlags | firmware/samd51_hid_injector/src/descriptor.rs:312-328 | after a successful parse: keyboard iff some field is on page 0x07; mouse iff some field is on page 0x01 with usage 0x30, 0x31 or 0x38; gamepad iff some field is on page 0x09 or 0x05 |
| Descriptor.ParseItemsWf | firmware/samd51_hid_injector/src/descriptor.rs:141-188 | the loop preserves the parser invariant: at most 64 fields, well-formed tables, fields packed in offset order |
| Descriptor.ParsedLayout | firmware/samd51_hid_injector/src/descriptor.rs:11 | a parsed descriptor has at most 64 fields, tables of at most 8 distinct ids, and fields that do not overlap and appear in bit-offset order |
| Descriptor.ParsePrefixOfValid | firmware/samd51_hid_injector/src/descriptor.rs:141-167 | every prefix of a descriptor that parses either parses or fails with `UnexpectedEnd` |
| Descriptor.ParseItemsShift | firmware/samd51_hid_injector/src/descriptor.rs:141-188 | parsing depends only on the bytes from the current index on |
| Descriptor.ParseItemsConcat | firmware/samd51_hid_injector/src/descriptor.rs:141-188 | parsing a+b equals parsing b from the state reached after a (single pass) |
| Descriptor.TruncatedItemFails | firmware/samd51_hid_injector/src/descriptor.rs:153-167 | a valid item run followed by a truncated item fails with `UnexpectedEnd` |
| Descriptor.TruncatedExamples | firmware/samd51_hid_injector/src/descriptor.rs:153-167 | a lone size-3 header, a 1-byte item without payload and an over-long long item fail; a long item that fits is consumed |
| Descriptor.DescriptorParser.constructor | firmware/samd51_hid_injector/src/descriptor.rs:126-138 | an empty descriptor and all current values zero |
| Descriptor.DescriptorParser.Parse | firmware/samd51_hid_injector/src/descriptor.rs:141-194 | the `while` loop ends in the state and result of the item-by-item specification; an error is returned as is |
| Descriptor.DescriptorParser.HandleItem | firmware/samd51_hid_injector/src/descriptor.rs:182-187 | dispatch on the item type; type 3 changes nothing |
| Descriptor.DescriptorParser.HandleMainItem | firmware/samd51_hid_injector/src/descriptor.rs:197-206 | Input, Output and Feature change state; Collection, End Collection and unknown tags do not |
| Descriptor.DescriptorParser.HandleGlobalItem | firmware/samd51_hid_injector/src/descriptor.rs:209-220 | tags 0, 1, 2, 7, 9 and 8 set page, bounds, size, count and id, truncated to u16/u8; the result is always Ok |
| Descriptor.DescriptorParser.HandleLocalItem | firmware/samd51_hid_injector/src/descriptor.rs:223-229 | tag 0 sets the usage; other local tags change nothing |
| Descriptor.DescriptorParser.AddInputItem | firmware/samd51_hid_injector/src/descriptor.rs:232-268 | the `for` loop's effect is that of the Input specification |
| Descriptor.DescriptorParser.AddOutputItem | firmware/samd51_hid_injector/src/descriptor.rs:271-275 | advances the offset and updates the output table |
| Descriptor.DescriptorParser.AddFeatureItem | firmware/samd51_hid_injector/src/descriptor.rs:278-281 | advances the offset only |
| Descriptor.DescriptorParser.UpdateReportSize | firmware/samd51_hid_injector/src/descriptor.rs:293-309 | the in-place row update or append equals the size-table specification |
| Descriptor.DescriptorParser.DetectDeviceTypes | firmware/samd51_hid_injector/src/descriptor.rs:312-328 | the flag loop ends with the flags of the classification over all fields |
| Descriptor.DescriptorParser.ClassifyField | firmware/samd51_hid_injector/src/descriptor.rs:313-326 | one field can only raise flags, by its page and usage |
| Descriptor.DescriptorParser.IntoDescriptor | firmware/samd51_hid_injector/src/descriptor.rs:331-333 | yields the parser's descriptor |
| DescriptorExamples.MouseDescriptorParses | firmware/samd51_hid_injector/src/descriptor.rs:354-391 | the test mouse descriptor parses into three button fields and two relative axes, with mouse set and keyboard clear (gamepad is also set by the Button page) |
| DescriptorCache.FindKey | firmware/samd51_hid_injector/src/descriptor_cache.rs:54-55 | the first entry with the (address, interface) key, or the length when there is none |
| DescriptorCache.Lookup | firmware/samd51_hid_injector/src/descriptor_cache.rs:83-93 | None exactly when no entry has the key; otherwise the descriptor of an entry with that key |
| DescriptorCache.RawCopy | firmware/samd51_hid_injector/src/descriptor_cache.rs:46-49 | the stored raw bytes are the first min(n, 1024) input bytes |
| DescriptorCache.OldestIndex | firmware/samd51_hid_injector/src/descriptor_cache.rs:101-107 | the first entry with the smallest timestamp |
| DescriptorCache.RemoveAt | firmware/samd51_hid_injector/src/descriptor_cache.rs:105 | removal at an index keeps the other entries in order |
| DescriptorCache.Added | firmware/samd51_hid_injector/src/descriptor_cache.rs:37-80 | a parse error is returned as is; a success follows a successful parse and ticks the clock by one |
| DescriptorCache.Inserted | firmware/samd51_hid_injector/src/descriptor_cache.rs:51-79 | the `InvalidData` failure happens exactly for a new key in a cache already holding more than 8 entries; a success ticks the clock and leaves either the old length or at most 8 entries |
| DescriptorCache.Touched | firmware/samd51_hid_injector/src/descriptor_cache.rs:83-93 | the clock ticks by one and the length is kept; a hit gives the found entry the new time, and every other entry, and every entry on a miss, is unchanged |
| DescriptorCache.Stats | firmware/samd51_hid_injector/src/descriptor_cache.rs:110-137 | the total is the number of entries and every class count is at most the total |
| DescriptorCache.AddedFailsOnlyOnParseError | firmware/samd51_hid_injector/src/descriptor_cache.rs:41-42 | `add` on a valid cache fails exactly when the descriptor does not parse, and then with the parser's error |
| DescriptorCache.AddedValid | firmware/samd51_hid_injector/src/descriptor_cache.rs:37-80 | `add` keeps the cache invariant: at most 8 entries, unique keys, distinct timestamps not above the clock, raw copies within 1024 bytes |
| DescriptorCache.InsertedValid | firmware/samd51_hid_injector/src/descriptor_cache.rs:51-79 | the insertion after a parse never takes the `InvalidData` path on a valid cache and keeps the invariant |
| DescriptorCache.InsertedExistingKey | firmware/samd51_hid_injector/src/descriptor_cache.rs:53-61 | an existing key is overwritten in place with the new descriptor, raw bytes and time; length and all other entries unchanged; clock +1 |
| DescriptorCache.InsertedNewKey | firmware/samd51_hid_injector/src/descriptor_cache.rs:63-79 | a new key is appended; on a full cache exactly one entry with the smallest timestamp is removed first; the length never passes 8; clock +1 |
| DescriptorCache.AddedThenLookup | firmware/samd51_hid_injector/src/descriptor_cache.rs:37-93 | after a successful `add(a, i)` a lookup of (a, i) finds that descriptor |
| DescriptorCache.InsertedKeepsOtherKeys | firmware/samd51_hid_injector/src/descriptor_cache.rs:53-79 | `add` leaves every other key's lookup unchanged when its key exists or the cache has room; when a new key arrives in a full cache, the key of the entry with the oldest timestamp is no longer found and every other lookup is unchanged |
| DescriptorCache.LookupAfterRemove | firmware/samd51_hid_injector/src/descriptor_cache.rs:101-107 | with unique keys, removing an entry loses exactly its own key: that key is no longer found and every other key's lookup is unchanged |
| DescriptorCache.TouchedValid | firmware/samd51_hid_injector/src/descriptor_cache.rs:83-93 | `get`, hit or miss, ticks the clock by 1, keeps the invariant and the length, and changes no lookup |
| DescriptorCache.TouchedNotOldest | firmware/samd51_hid_injector/src/descriptor_cache.rs:83-93 | in a valid cache of two or more entries, the entry a `get` has just hit is not the oldest afterwards |
| DescriptorCache.GetKeepsEntryOnEviction | firmware/samd51_hid_injector/src/descriptor_cache.rs:36-106 | after a `get` hit in a full cache, storing a new key evicts another entry and the key just read is still found (least recently used, not first in) |
| DescriptorCache.CountWhereBounds | firmware/samd51_hid_injector/src/descriptor_cache.rs:119-134 | classified plus unclassified entries make up all entries |
| DescriptorCache.StatsBounds | firmware/samd51_hid_injector/src/descriptor_cache.rs:110-137 | `other` counts exactly the entries with none of the three flags, so `other` plus the flagged entries make the total |
| DescriptorCache.DescriptorCache.constructor | firmware/samd51_hid_injector/src/descriptor_cache.rs:29-34 | empty entries and clock 0 |
| DescriptorCache.DescriptorCache.Add | firmware/samd51_hid_injector/src/descriptor_cache.rs:37-80 | the new state is that of the `add` specification; a parse error leaves entries and clock unchanged |
| DescriptorCache.DescriptorCache.FindEntry | firmware/samd51_hid_injector/src/descriptor_cache.rs:54-55 | the search loop finds the first entry with the key |
| DescriptorCache.DescriptorCache.Store | firmware/samd51_hid_injector/src/descriptor_cache.rs:51-79 | the tick, overwrite-or-push and eviction in place equal the insertion specification |
| DescriptorCache.DescriptorCache.Get | firmware/samd51_hid_injector/src/descriptor_cache.rs:83-93 | returns the cached descriptor for the key or None; stamps only the hit entry with the new time |
| DescriptorCache.DescriptorCache.IsEmpty | firmware/samd51_hid_injector/src/descriptor_cache.rs:96-98 | true exactly when the total device count is 0 |
| DescriptorCache.DescriptorCache.EvictLru | firmware/samd51_hid_injector/src/descriptor_cache.rs:101-107 | removes the first oldest entry; an empty cache is unchanged |
| DescriptorCache.DescriptorCache.GetStats | firmware/samd51_hid_injector/src/descriptor_cache.rs:110-137 | the counting loop gives the statistics of the entries |
| DescriptorCacheExamples.WheelMouseParses | firmware/samd51_hid_injector/src/descriptor_cache.rs:175-202 | the unit test's wheel mouse parses into five buttons and X, Y and wheel axes, flagged as a mouse (and, by the Button page, a gamepad) |
| DescriptorCacheExamples.AddThenGetScenario | firmware/samd51_hid_injector/src/descriptor_cache.rs:170-216 | the unit test: adding the wheel-mouse descriptor as (1, 0) succeeds and a get of (1, 0) returns a descriptor flagged as a mouse |
| DescriptorCacheExamples.FillStep | firmware/samd51_hid_injector/src/descriptor_cache.rs:218-224 | adding key (n, 0) to a cache holding keys (0, 0) … (n−1, 0) stamped 1 … n, with room left, appends it stamped n+1 |
| DescriptorCacheExamples.EvictOldest | firmware/samd51_hid_injector/src/descriptor_cache.rs:218-230 | adding key (8, 0) to the full cache of keys (0, 0) … (7, 0) keeps 8 entries, loses key (0, 0), the oldest, and finds key (8, 0) |
| DescriptorCacheExamples.EvictionScenario | firmware/samd51_hid_injector/src/descriptor_cache.rs:218-230 | nine adds of the distinct keys (0, 0) … (8, 0) leave exactly 8 entries; the first key added, the least recently used, is no longer found and the last one is |
| Protocol.HexToNibble | firmware/samd51_hid_injector/src/protocol.rs:970-977 | Some(v) with v < 16 exactly for 0-9, a-f and A-F |
| Protocol.HexDigit | firmware/samd51_hid_injector/src/protocol.rs:987-993 | a nibble below 10 gives a character `0`–`9`, one from 10 to 15 a character `A`–`F` |
| Protocol.HexDigitRoundTrip | firmware/samd51_hid_injector/src/protocol.rs:987-993 | for n < 16 the digit is uppercase hex and decodes back to n |
| Protocol.HexToNibbleCases | firmware/samd51_hid_injector/src/protocol.rs:970-993 | every accepted digit is the uppercase encoding of its value or its lowercase twin |
| Protocol.HexByteDecodes | firmware/samd51_hid_injector/src/protocol.rs:43-44 | the two hex digits of a byte decode to hi·16 + lo = the byte |
| Protocol.U8FromSlice | firmware/samd51_hid_injector/src/protocol.rs:953-967 | None exactly when the first byte is not a digit; otherwise the leading digits modulo 256 |
| Protocol.ParseU8FromSlice | firmware/samd51_hid_injector/src/protocol.rs:953-967 | the wrapping loop computes that value |
| Protocol.AccumulateDigits | firmware/samd51_hid_injector/src/protocol.rs:103-106 | the digit loop stops at the first non-digit with the value wrapped to i16 |
| Protocol.IntValue | firmware/samd51_hid_injector/src/protocol.rs:85-113 | the signed decimal value of the text, congruent to it modulo 2^16 and equal to it whenever it fits in an i16 |
| Protocol.ParseInt | firmware/samd51_hid_injector/src/protocol.rs:85-113 | never None: skips spaces, takes an optional '-', reads leading digits |
| Protocol.IntValueOfText | firmware/samd51_hid_injector/src/protocol.rs:85-148 | parsing the decimal text of any i16 gives it back |
| Protocol.FormatI16 | firmware/samd51_hid_injector/src/protocol.rs:115-148 | writes the minimal decimal text, '-' first for negatives, returns its length and leaves the rest of the buffer unchanged |
| Protocol.FormatMinAsWritten | firmware/samd51_hid_injector/src/protocol.rs:120-139 | the code as written formats i16::MIN as a lone "-", which parses as 0; every other value round-trips |
| Protocol.FormatI16AsWritten | firmware/samd51_hid_injector/src/protocol.rs:115-148 | following the steps of `format_i16` as written (sign, wrapping negation, the digit loop `ReversedDigits` entered only while positive) writes the as-written text: a lone `-` for −32768, the decimal text otherwise |
| Protocol.WriteStrBounds | firmware/samd51_hid_injector/src/protocol.rs:980-984 | copies min(data length, room) bytes at `len`, advances `len` by that count, never past the buffer, and keeps the other bytes |
| Protocol.WriteStrConcat | firmware/samd51_hid_injector/src/protocol.rs:980-984 | two writes equal one write of the concatenation |
| Protocol.WriteStr | firmware/samd51_hid_injector/src/protocol.rs:980-984 | the array copy equals the specification |
| Protocol.SkipFrom | firmware/samd51_hid_injector/src/protocol.rs:720-722 | skips exactly the run of spaces and commas |
| Protocol.DecodeHexEncode | firmware/samd51_hid_injector/src/protocol.rs:717-736 | decoding the uppercase hex of any bytes gives back the bytes, cut at the cap |
| Protocol.DecodePairAt | firmware/samd51_hid_injector/src/protocol.rs:724-732 | a valid pair yields (hi<<4)\|lo and consumes two bytes |
| Protocol.DecodeHexFrom | firmware/samd51_hid_injector/src/protocol.rs:717-736 | the loop from index i yields at most `cap` bytes |
| Protocol.DecodeHex | firmware/samd51_hid_injector/src/protocol.rs:713-736 | at most `cap` bytes; decoding uppercase hex gives the bytes back (`Protocol.DecodeHexEncode`) |
| Protocol.PairSplit | firmware/samd51_hid_injector/src/protocol.rs:717-736 | after the separators a pair yields at most one byte, so a pair with a non-hex byte is consumed without output |
| Protocol.NothingLeft | firmware/samd51_hid_injector/src/protocol.rs:724-735 | a lone trailing byte ends decoding |
| Protocol.DecodeHexBlob | firmware/samd51_hid_injector/src/protocol.rs:713-736 | the loop fills the 1024-byte buffer with exactly the decoded bytes, stopping at 1024 |
| Protocol.LengthDigits | firmware/samd51_hid_injector/src/protocol.rs:52-55 | four uppercase hex digits |
| Protocol.Checksum | firmware/samd51_hid_injector/src/protocol.rs:69-72 | with no payload the checksum is the code (what the digits decode to is `Protocol.UartFrameChecksOut`) |
| Protocol.UartFrame | firmware/samd51_hid_injector/src/protocol.rs:34-82 | the frame is exactly 256 bytes |
| Protocol.UartFrameLayout | firmware/samd51_hid_injector/src/protocol.rs:34-82 | header, the used payload bytes, `[CKSUM:zz]\n`, then zeros up to 256 |
| Protocol.HeaderLayout | firmware/samd51_hid_injector/src/protocol.rs:41-58 | `[CMD:` + two hex digits of the code + `] [LEN:` + four hex digits + `] ` |
| Protocol.TrailerLayout | firmware/samd51_hid_injector/src/protocol.rs:65-79 | a space, `[CKSUM:`, two hex digits, `]` and a newline |
| Protocol.UartFrameChecksOut | firmware/samd51_hid_injector/src/protocol.rs:69-76 | the CKSUM digits decode to code + Σ payload[0..length] mod 256, and the CMD digits decode to the code |
| Protocol.ChecksumDetectsOneByte | firmware/samd51_hid_injector/src/protocol.rs:69-72 | changing one used payload byte changes the checksum |
| Protocol.PayloadChecksum | firmware/samd51_hid_injector/src/protocol.rs:69-72 | the wrapping-add loop computes that checksum |
| Protocol.ToUartFrame | firmware/samd51_hid_injector/src/protocol.rs:34-82 | the array writes build exactly the specified frame |
| Protocol.FeedWithoutTerminator | firmware/samd51_hid_injector/src/protocol.rs:166-181 | without CR or LF no line is produced and the bytes are appended, dropping those past 256 |
| Protocol.Feed | firmware/samd51_hid_injector/src/protocol.rs:166-181 | the buffer never holds more than 256 bytes, and a completed line, at most 256 bytes long, leaves it empty |
| Protocol.FeedAtTerminator | firmware/samd51_hid_injector/src/protocol.rs:166-174 | at the first CR/LF the accumulated line is produced and the buffer emptied; later bytes of the chunk are dropped |
| Protocol.FeedChunks | firmware/samd51_hid_injector/src/protocol.rs:166-181 | a chunk without a terminator followed by another chunk equals one chunk |
| Protocol.FeedPrefix | firmware/samd51_hid_injector/src/protocol.rs:166-181 | bytes before the first terminator only extend the buffer |
| Protocol.MoveDeltas | firmware/samd51_hid_injector/src/protocol.rs:284-305 | succeeds exactly when a ')' exists with a ',' before it |
| Protocol.MoveDeltasOfText | firmware/samd51_hid_injector/src/protocol.rs:284-305 | `x,y)` written in decimal parses back to (x, y) |
| Protocol.MoveCommand | firmware/samd51_hid_injector/src/protocol.rs:278-323 | NoOp exactly when the arguments do not parse; otherwise code 0x11, length 5, payload [0, dx&0xFF, dy&0xFF, 0, 0] |
| Protocol.MoveOfText | firmware/samd51_hid_injector/src/protocol.rs:278-323 | `nozen.move(x,y)` with decimal x, y yields the mouse command [0, x, y, 0, 0] |
| Protocol.MouseCommand | firmware/samd51_hid_injector/src/protocol.rs:311-322 | code 0x11, length 5, the five payload bytes, zeros after |
| Protocol.MouseCommandIsReport | firmware/samd51_hid_injector/src/protocol.rs:311-322 | the five payload bytes are the boot mouse report of the same buttons, deltas and wheel |
| Protocol.WheelCommand | firmware/samd51_hid_injector/src/protocol.rs:401-430 | NoOp exactly when ')' is missing; otherwise the mouse command with wheel byte amount&0xFF |
| Protocol.WheelOfText | firmware/samd51_hid_injector/src/protocol.rs:401-430 | `nozen.wheel(v)` with decimal v yields wheel byte v&0xFF |
| Protocol.ParseButtonCommand | firmware/samd51_hid_injector/src/protocol.rs:373-399 | NoOp exactly when ')' is missing; otherwise the button byte is the mask iff the first argument byte is '1' and 0 otherwise, with no movement |
| Protocol.ButtonPress | firmware/samd51_hid_injector/src/protocol.rs:373-399 | `(1)` presses exactly the mask |
| Protocol.ButtonRelease | firmware/samd51_hid_injector/src/protocol.rs:373-399 | `(0)` releases all buttons |
| Protocol.ButtonMasks | firmware/samd51_hid_injector/src/protocol.rs:225-239 | left, right, middle, side1 and side2 masks are the click bits 0–4 of the mouse report |
| Protocol.PosResponseReadsBack | firmware/samd51_hid_injector/src/protocol.rs:434-459 | the `km.pos(x,y)` response starts with `km.pos(` and its arguments parse back to (x, y), with the corrected `format_i16` (see Left out) |
| Protocol.FormatPos | firmware/samd51_hid_injector/src/protocol.rs:437-453 | the array writes build exactly that response, with the corrected `format_i16` (see Left out) |
| Protocol.GetPosAsWritten | firmware/samd51_hid_injector/src/protocol.rs:434-459 | with `format_i16` as written the reply is the same for every position without a −32768 coordinate |
| Protocol.GetPosMinAsWritten | firmware/samd51_hid_injector/src/protocol.rs:434-459 | as written, a cursor at (−32768, 0) is reported as `km.pos(-,0)`, which reads back as (0, 0) |
| Protocol.ReadMoveArgs | firmware/samd51_hid_injector/src/protocol.rs:284-305 | the slicing code computes the move arguments |
| Protocol.CommandProcessor.constructor | firmware/samd51_hid_injector/src/protocol.rs:151-160 | empty line buffer, no response, mouse at (0, 0) |
| Protocol.CommandProcessor.Parse | firmware/samd51_hid_injector/src/protocol.rs:163-182 | buffer and index follow the line-accumulator specification, and the completed line is returned |
| Protocol.CommandProcessor.GetResponse | firmware/samd51_hid_injector/src/protocol.rs:185-193 | the pending response once, then `response_len` is 0 |
| Protocol.CommandProcessor.HandleGetPos | firmware/samd51_hid_injector/src/protocol.rs:434-459 | the response buffer holds `km.pos(x,y)\n` for the current position, with the corrected `format_i16` (see Left out) |
| Protocol.CommandProcessor.ParseMouseMove | firmware/samd51_hid_injector/src/protocol.rs:278-323 | returns the move command and adds the deltas to the position with saturation, or changes nothing |
| Protocol.CommandProcessor.ParseWheelCommand | firmware/samd51_hid_injector/src/protocol.rs:401-430 | returns the wheel command |
| Protocol.MoveThenGetPos | firmware/samd51_hid_injector/src/protocol.rs:163-193 | `nozen.move(3,-4)` then `nozen.getpos` gives `km.pos(3,-4)`, and a second read gives nothing |
| Recoil.Lookup | firmware/samd51_hid_injector/src/recoil.rs:70-77 | a name longer than 32 bytes is never found; otherwise the stored pattern |
| Recoil.Add | firmware/samd51_hid_injector/src/recoil.rs:30-57 | a refused add leaves the store as it was; an accepted one files exactly the new pattern under the name and adds no other key |
| Recoil.Delete | firmware/samd51_hid_injector/src/recoil.rs:60-67 | true exactly when the name was found; afterwards it is not found, and every remaining pattern was there before unchanged |
| Recoil.AddOutcome | firmware/samd51_hid_injector/src/recoil.rs:30-57 | accepted iff the step count is a multiple of 3, at most 64, the name fits in 32 bytes, and the name exists or fewer than 16 patterns exist; the triplet check comes first; a rejection leaves the store unchanged |
| Recoil.LongestPattern | firmware/samd51_hid_injector/src/recoil.rs:32-38 | 63 steps are accepted, 64 fail the triplet check and 66 are too long |
| Recoil.FullStoreRefuses | firmware/samd51_hid_injector/src/recoil.rs:53-54 | a new name in a full store of 16 is refused with "Pattern storage full" |
| Recoil.AddThenLookup | firmware/samd51_hid_injector/src/recoil.rs:48-56 | after a successful add the name returns exactly those steps and other names are untouched; re-adding a name keeps the count |
| Recoil.AddKeepsValid | firmware/samd51_hid_injector/src/recoil.rs:30-57 | the store keeps at most 16 patterns, names of at most 32 bytes and steps of at most 64 |
| Recoil.DeleteThenLookup | firmware/samd51_hid_injector/src/recoil.rs:60-67 | returns true iff the name was present; afterwards it is absent and other names are untouched |
| Recoil.DeleteKeepsValid | firmware/samd51_hid_injector/src/recoil.rs:60-67 | deletion keeps the store invariant |
| Recoil.RecoilManager.constructor | firmware/samd51_hid_injector/src/recoil.rs:23-27 | an empty store |
| Recoil.RecoilManager.AddPattern | firmware/samd51_hid_injector/src/recoil.rs:30-57 | result and new store are those of the add specification |
| Recoil.RecoilManager.DeletePattern | firmware/samd51_hid_injector/src/recoil.rs:60-67 | result and new store are those of the delete specification |
| Recoil.RecoilManager.GetPattern | firmware/samd51_hid_injector/src/recoil.rs:70-77 | the stored pattern, if the name fits and is present |
| Recoil.RecoilManager.Count | firmware/samd51_hid_injector/src/recoil.rs:90-92 | never more than 16 |
| Recoil.I16Value | firmware/samd51_hid_injector/src/recoil.rs:161-188 | the result lies in [−32767, 32767] |
| Recoil.I16ValueSaturates | firmware/samd51_hid_injector/src/recoil.rs:177-185 | digits worth 32767 or more give ±32767; an empty piece gives 0 |
| Recoil.I16ValueOfText | firmware/samd51_hid_injector/src/recoil.rs:161-188 | the decimal text of any value in [−32767, 32767] parses back to it |
| Recoil.SaturatingDigits | firmware/samd51_hid_injector/src/recoil.rs:177-181 | the saturating loop stops at the first non-digit with min(value, 32767) |
| Recoil.ParseI16 | firmware/samd51_hid_injector/src/recoil.rs:161-188 | never None |
| Recoil.SplitValues | firmware/samd51_hid_injector/src/recoil.rs:118-139 | the comma loop gives the values of all pieces, or None when there are more than 64 |
| Recoil.PiecesOfJoin | firmware/samd51_hid_injector/src/recoil.rs:118-137 | splitting comma-joined decimal values gives back the values |
| Recoil.TrailingComma | firmware/samd51_hid_injector/src/recoil.rs:122-124 | a trailing comma adds no value |
| Recoil.EmptyPiece | firmware/samd51_hid_injector/src/recoil.rs:122-127 | two commas in a row give an empty piece, read as 0 |
| Recoil.SplitRCount | firmware/samd51_hid_injector/src/recoil.rs:122-137 | a text with c commas splits into c + 1 pieces |
| Recoil.Pieces | firmware/samd51_hid_injector/src/recoil.rs:118-137 | an empty text gives no piece, any other text at least one |
| Recoil.PiecesCount | firmware/samd51_hid_injector/src/recoil.rs:118-137 | a non-empty text gives one piece more than its commas, or exactly as many when it ends in a comma |
| Recoil.RecoilAdd | firmware/samd51_hid_injector/src/recoil.rs:97-140 | None for a line shorter than the prefix; a found name is the text right after the prefix, contains no ')', and comes with at most 64 values |
| Recoil.ParseRecoilAdd | firmware/samd51_hid_injector/src/recoil.rs:97-140 | the slicing code computes the add specification: None when the line is short or ')', '{' or '}' is missing, or on more than 64 values |
| Recoil.RecoilAddOfText | firmware/samd51_hid_injector/src/recoil.rs:97-140 | `nozen.recoil.add(name){v1,…,vn}` with n ≤ 64 gives back exactly the name and the values |
| Recoil.ParseRecoilName | firmware/samd51_hid_injector/src/recoil.rs:144-159 | None when the line is shorter than prefix + 2 or has no '('; a found name holds no ')' |
| Recoil.RecoilNameOfText | firmware/samd51_hid_injector/src/recoil.rs:144-159 | `prefix(name)` gives back the name |
| Recoil.RecoilNameMissing | firmware/samd51_hid_injector/src/recoil.rs:156 | without a ')' the result is None |
| State.SaturatingAdd | firmware/samd51_hid_injector/src/state.rs:15-18 | the exact sum when it fits in i16, otherwise the nearer bound |
| State.SaturatingAddDirection | firmware/samd51_hid_injector/src/state.rs:15-18 | a non-negative delta never moves left and a non-positive one never moves right |
| State.SaturatingAddMonotone | firmware/samd51_hid_injector/src/state.rs:15-18 | saturating addition is monotone in the position |
| State.SaturatingAddTwice | firmware/samd51_hid_injector/src/state.rs:15-18 | two non-negative moves equal one combined move |
| State.MouseState.constructor | firmware/samd51_hid_injector/src/state.rs:10-12 | the position starts at (0, 0) |
| State.MouseState.UpdateRelative | firmware/samd51_hid_injector/src/state.rs:15-18 | each coordinate becomes the saturated sum |
| State.MouseState.DeltaTo | firmware/samd51_hid_injector/src/state.rs:21-23 | the exact difference when it fits; in every case adding it back with wrap-around reaches the target |
| State.WrapAddBack | firmware/samd51_hid_injector/src/state.rs:21-23 | a wrapped difference added back with wrap-around gives the target |
| State.MouseState.SetPosition | firmware/samd51_hid_injector/src/state.rs:26-29 | the position becomes (x, y) |
| State.MouseState.Position | firmware/samd51_hid_injector/src/state.rs:32-34 | returns the fields and changes nothing |
| State.TrackingScenario | firmware/samd51_hid_injector/src/state.rs:15-34 | from the origin, two moves of 30000 clamp x at 32767; the delta back to the origin is exact, and the delta from 32767 to −32768, which does not fit in 16 bits, wraps to +1 |
| Hid.KeyboardBytes | firmware/samd51_hid_injector/src/hid.rs:32-43 | eight bytes |
| Hid.KeyboardRoundTrip | firmware/samd51_hid_injector/src/hid.rs:32-43 | modifier, reserved and the six keys are laid out in order: the bytes determine the report and the report the bytes |
| Hid.EmptyKeyboardBytes | firmware/samd51_hid_injector/src/hid.rs:14-20 | the empty report is eight zero bytes |
| Hid.SingleKeyBytes | firmware/samd51_hid_injector/src/hid.rs:23-29 | `single_key(sc, m)` is [m, 0, sc, 0, 0, 0, 0, 0] |
| Hid.SingleKey | firmware/samd51_hid_injector/src/hid.rs:23-29 | the report read from the bytes [m, 0, sc, 0, 0, 0, 0, 0] |
| Hid.ModifiersSingleBits | firmware/samd51_hid_injector/src/hid.rs:152-159 | each of the eight modifier constants is exactly bit k |
| Hid.ModifiersDistinct | firmware/samd51_hid_injector/src/hid.rs:152-159 | the eight modifier constants are distinct |
| Hid.ShiftCtrlReport | firmware/samd51_hid_injector/src/hid.rs:192-200 | left Shift with left Ctrl is 0x03, exactly bits 0 and 1, and `single_key(A, that)` is [0x03, 0, A, 0, 0, 0, 0, 0] |
| Hid.MouseBytes | firmware/samd51_hid_injector/src/hid.rs:91-99 | five bytes |
| Hid.MouseRoundTrip | firmware/samd51_hid_injector/src/hid.rs:91-99 | buttons, x, y, wheel and pan in order, signed bytes as two's complement: bytes and report determine each other |
| Hid.SignedByteRoundTrip | firmware/samd51_hid_injector/src/hid.rs:94-97 | `as u8` then `as i8` is the identity, and the other way round |
| Hid.ClickPressesOneButton | firmware/samd51_hid_injector/src/hid.rs:69-77 | `click(b)` sets exactly bit b mod 8 with no movement, wheel or pan |
| Hid.Click | firmware/samd51_hid_injector/src/hid.rs:69-77 | bit b mod 8 of the buttons is set and bytes 1–4 (x, y, wheel, pan) are zero |
| Hid.MoveTo | firmware/samd51_hid_injector/src/hid.rs:80-88 | the report read from the bytes [0, x as u8, y as u8, 0, 0] |
| Hid.MoveToBytes | firmware/samd51_hid_injector/src/hid.rs:80-88 | `move_to(x, y)` is [0, x as u8, y as u8, 0, 0] and both deltas read back |
| Hid.MouseReportExamples | firmware/samd51_hid_injector/src/hid.rs:210-273 | the five unit tests: the empty report and its five zero bytes, clicks 0–2 give buttons and byte 1, 2 and 4, the two movements give the listed fields and bytes, and a wheel of 3 gives byte 3 |

## Left out

- `main.rs` (clock, USB, LED setup and the polling loop), `uart.rs` (empty stubs) and `lib.rs` (module declarations): hardware I/O, no behaviour to model.
- The Python host tools: they are separate programs that talk to the firmware over USB and serial.
- `CommandProcessor`'s `recoil_manager` field is not a field of `Protocol.CommandProcessor`: only the `recoil.*` handlers, which are not modelled, use it. The store itself is `Recoil.RecoilManager`.
- `CommandProcessor::parse_line` dispatch and the handlers for `moveto`, `recoil.*`, `print`, `descriptor.*` and `[DESC:` headers are not modelled. `Protocol.CommandProcessor.Parse` returns the completed line instead of dispatching it. What the model covers of those handlers is the helpers they call: the move, wheel and button command builders, the `km.pos` response, the hex-blob loop, `parse_recoil_add`/`parse_recoil_name` and the cache.
- The `[DESC:aa:i]` address and interface digits: decoding them only feeds `hex_to_nibble`, which is modelled.
- Response texts built with `core::fmt` and `heapless::String` (the `[AUTO]`/`[WARN]` lines, the recoil error and list responses, `CacheStats::format`): foreign formatting machinery. The recoil list and names responses also depend on `FnvIndexMap` hash order, which a Dafny `map` does not have.
- `heapless::Vec` and `FnvIndexMap` internals: modelled as a bounded `seq` and a `map` whose capacities the invariants state.
- `RecoilManager::list_names` and `list_patterns`: iterators in hash order. Order is not modelled, so only `Recoil.RecoilManager.Count` and the map contents are.
- Recoil names are byte strings. The `from_utf8(..).unwrap_or("???")` step before `add_pattern` is not modelled.
- Protocol.LengthDigits: the firmware's expression for the LEN digits shifts a `u8` right by 12 and by 8, which the Rust compiler rejects as an overflowing shift. The model writes the four hex digits of the length. No property ties the LEN field to the length beyond its being four hex digits.
- Descriptor.ParseStep: the u16 `current_bit_offset` is an unbounded natural number. Its sums at descriptor.rs:239, 261, 272, 279 and 295 panic in a debug build and wrap in a release build; the model does neither.
- DescriptorCache.DescriptorCache.Add: the u32 clock is unbounded. The `+= 1` at descriptor_cache.rs:51 and 84 would overflow only after 2^32 operations.
- Protocol.ParseInt: `parse_int` overflows i16 on long digit runs and on `-i16::MIN` (a debug panic). The model uses the release behaviour, wrapping modulo 2^16.
- State.MouseState.DeltaTo: `target - x` overflows i16 in debug builds. The model uses the release behaviour, wrapping.
- Hid.Click: `1 << button` panics for button ≥ 8 in a debug build. The model uses the release behaviour, shifting by `button % 8`.
- Protocol.CommandProcessor.HandleGetPos: the reply is built with the corrected `format_i16` (`Protocol.FormatI16`), not the code as written. `Protocol.GetPosAsWritten` proves both replies equal for every position without a −32768 coordinate; `Protocol.GetPosMinAsWritten` gives the as-written reply at −32768.
- Protocol.FormatPos: uses the corrected `format_i16`, as `Protocol.CommandProcessor.HandleGetPos` does.
- Protocol.PosResponseReadsBack: is stated for the corrected reply. For the reply as written it holds only without a −32768 coordinate (`Protocol.GetPosAsWritten`).
- Descriptor.DescriptorParser.Parse: after an error the parser object's fields are left unspecified. The firmware drops the parser on error, and `DescriptorCache::add` returns before using it.
- The unit test in `descriptor.rs` calls `parser.descriptor()`, which does not exist. `DescriptorExamples.MouseDescriptorParses` states the test's claims about `into_descriptor`.
- `DescriptorCache` has no `get_raw`, `remove`, `clear` or `count` method, and none is modelled.

## Findings

| source | as written | input that shows it | evidently intended | confidence | as-written member | corrected member |
|---|---|---|---|---|---|---|
| firmware/samd51_hid_injector/src/protocol.rs:120-139 | `format_i16` negates the value before writing its digits; for i16::MIN the negation wraps to i16::MIN again in a release build, the `while val > 0` loop writes nothing, and the text is a lone `-` (a debug build panics instead) | `format_i16(-32768, buf)`, as `handle_getpos` does once the position saturates at −32768 | the text `-32768`, which `parse_int` reads back as −32768 | not executed | Protocol.FormatI16AsWritten, Protocol.FormatMinAsWritten | Protocol.FormatI16 |
