# PAK and STRG containers, modelled in Dafny

This project models the two archive codecs of the echoes patching library.

- **PAK** (`pak.py`) is the game's resource archive. It holds a 12-byte header (">HHII"), then the named resource entries (">4sII" plus a name), then the resource count and 20-byte resource entries (">I4sIII"). Next come 0x00 bytes up to a multiple of 32. Last are the payloads, each padded with 0xFF to a multiple of 32.
- **STRG** (`strg.py`) is the string container. It holds a 16-byte header, then one 12-byte language entry per language, the name table, and one string table per language. It ends with 0xFF padding to a multiple of 32.

Bytes are integers 0..255 (`Binary.Byte`). Integers are big-endian u16/u32, written out with explicit range predicates (`IsU16`, `IsU32`). `struct.pack` raises `struct.error` when a field does not fit, so every `Packed()` either requires `Packable()` or returns a `Result` that is `Err(StructError)`.

Each Python exception the modelled code can raise is one `Results.Error`:

| Python exception | `Results.Error` |
|---|---|
| `struct.error` | `StructError` |
| `ValueError` from `index` | `ValueNotFound` |
| `KeyError` | `KeyNotFound` |
| `IndexError` | `IndexOutOfRange` |
| the UTF-16 decoder's error | `UnicodeDecodeError` |
| the missing `asset_type` | `AttributeError` |
| the bad call | `TypeError` |

Python slices clamp instead of failing; `Binary.Slice`, `Drop`, `SignedSlice`, `Sequences.Take` and `Skip` say so. Strings are sequences of UTF-16 code units.

The containers are frozen dataclasses, so every edit returns a new value.

- **Pure code is functions.** `packed()`, the size properties, lookups and `with_resource_replaced*` become functions on datatypes.
- **Loops are methods.** Each loop of the source becomes a `method` with a `for` loop: the `from_packed` loops with their running offset, the `__post_init__` dictionaries, and the edit loops of `with_resource_inserted`, `with_resource_removed`, `with_string_replaced` and `with_string_table_replaced`.
- **Each method is proved against a function.** Its `ensures` equates the result with a specification function (`Decode`, `ResourcesAt`, `Inserted`, `StringReplaced`, …), and the lemmas state the source's promises about those functions (for decoding, `StrgFacts.StrgDecode*` and `PakLayout.PakDecodeLayout`).

Files and modules:

- `binary.dfy`
  - `Results`: errors, `Result`, `Option`.
  - `Binary`: words, slicing, alignment, "4s", NUL searches, UTF-16BE.
  - `Sequences`: generic sequence facts.
- `strg_records.dfy`: `StrgRecords`.
- `strg_tables.dfy`: `StrgTables` and `StrgTableFacts`.
- `strg.dfy`: `Strg` and `StrgFacts`.
- `pak_records.dfy`: `PakRecords`.
- `pak.dfy`: `Pak`.
- `pak_facts.dfy`: `PakFacts`.
- `pak_layout.dfy`: `PakLayout`.

## Model

| member | source | states |
|---|---|---|
| `Binary.PackU16` | pak.py:98 | a u16 is packed into two big-endian bytes that unpack to it |
| `Binary.PackUnpackU16` | pak.py:98 | any two bytes, unpacked as a u16 and packed again, are the same two bytes |
| `Binary.PackU32` | pak.py:49 | a u32 is packed into four big-endian bytes that unpack to it |
| `Binary.UnpackU32Value` | pak.py:49 | the u32 read from four bytes is b0·2^24 + b1·2^16 + b2·2^8 + b3 |
| `Binary.PackUnpackU32` | pak.py:49 | any four bytes, unpacked as a u32 and packed again, are the same four bytes |
| `Binary.Slice` | pak.py:134 | a Python slice: the elements lo..hi clamped to the length, empty when lo is past the end or hi <= lo |
| `Binary.PaddingTo32` | pak.py:172 | `(32 - n % 32) % 32` is below 32, brings n to a multiple of 32, and is 0 exactly when n already is one |
| `Binary.AlignedSize` | pak.py:93 | a size rounded up: a multiple of 32, at least the size and less than 32 above it |
| `Binary.AlignedTo32Bytes` | pak.py:92-94 | the result starts with the input, is a multiple of 32 long, adds at most 31 bytes, all 0xFF, and is the input itself when that is already aligned |
| `Binary.AlignedChunksSizeAligned` | pak.py:186 | the padded payload region is a multiple of 32 bytes long |
| `Binary.JoinAlignedAt` | pak.py:186 | in the joined padded chunks, chunk k with its padding sits right after the padded chunks before it |
| `Binary.RegionAt` | pak.py:186 | the same holds inside any byte string that carries the joined padded chunks from some offset on, with the offset added |
| `Binary.Pack4s` | pak.py:49 | struct "4s": exactly four bytes, the tag's bytes then NUL fill, truncated when longer, the tag itself when it has four bytes |
| `Binary.IndexOfNul` | strg.py:75 | the first 0x00 at or after a position, or none when there is no 0x00 after it |
| `Binary.IndexOfDoubleNul` | strg.py:108 | the first 00 00 pair at or after a position, at any parity, or none |
| `Binary.EncodeUtf16Be` | strg.py:121 | each code unit becomes its two big-endian bytes, in order |
| `Binary.DecodeUtf16Be` | strg.py:110 | an even number of bytes decodes to one code unit per byte pair; an odd number is a decode error |
| `Binary.Utf16RoundTrip` | strg.py:110 | decoding an encoding gives the code units back |
| `Binary.Utf16BytesRoundTrip` | strg.py:109-110 | encoding what an even-length buffer decodes to gives the buffer back |
| `Sequences.FirstIndexOf` | strg.py:93 | `tuple.index`: the first position holding the value, and none exactly when it is absent |
| `StrgRecords.LanguageTable.Packed` | strg.py:26-31 | a language entry packs to 12 bytes |
| `StrgRecords.LanguageTable.FromPacked` | strg.py:17-20 | decoding succeeds exactly on 12 bytes (otherwise `struct.error`) and gives a four-byte tag and u32 fields |
| `StrgRecords.LanguageTableRoundTrip` | strg.py:11-31 | a language entry with a four-byte tag and u32 fields decodes from its packed bytes to itself |
| `StrgRecords.LanguageTableBytesRoundTrip` | strg.py:11-31 | any 12 bytes decode and re-encode to the same 12 bytes |
| `StrgRecords.NameEntry.Packed` | strg.py:49-50 | a name entry packs to 8 bytes |
| `StrgRecords.NameEntry.FromPacked` | strg.py:41-43 | decoding succeeds exactly on 8 bytes (otherwise `struct.error`) and gives u32 fields |
| `StrgRecords.NameEntryRoundTrip` | strg.py:36-50 | a name entry with u32 fields decodes from its packed bytes to itself |
| `StrgRecords.NameEntryBytesRoundTrip` | strg.py:36-50 | any 8 bytes decode and re-encode to the same 8 bytes |
| `StrgTables.NameTable.Packed` | strg.py:85-90 | the packed name table starts with the stored count and size, never recomputed; after the 8-byte entries come all the names, each followed by a NUL; the length is `packed_size` |
| `StrgTables.NamesSizeSum` | strg.py:85-90 | the names take one NUL per name plus their total length |
| `StrgTables.NameTable.GetStringIndexForName` | strg.py:92-93 | the string index of the entry at the first position whose name matches; `ValueError` when no name matches; `IndexError` only when that position has no entry |
| `StrgTables.NameTable.FromPacked` | strg.py:62-79 | the loops compute `NameTable.Decode` |
| `StrgTables.ReadNameEntries` | strg.py:66-70 | the loop fails with `struct.error` exactly when `count` entries do not fit after the header; otherwise it returns the entries at 8 + 8k |
| `StrgTables.ReadNames` | strg.py:72-77 | the loop computes `NamesAt` |
| `StrgTables.EntriesAt` | strg.py:66-70 | `n` entries, entry k re-encoding to the 8 bytes at 8 + 8k |
| `StrgTables.NameAt` | strg.py:74-76 | the name at 8 + offset is the NUL-free run of bytes up to a NUL; none exactly when no NUL follows |
| `StrgTables.NamesAt` | strg.py:72-77 | one name per entry; `ValueError` exactly when some entry's name has no NUL after it |
| `StrgTables.NameTableDecodeLayout` | strg.py:62-79 | a decoded name table has `count` entries and names, the header words as read, each entry re-encoding to its slot, and each name NUL-terminated at 8 + its offset |
| `StrgTables.NameTableMissingTerminator` | strg.py:75 | decoding fails with `ValueError` when an entry's name has no NUL after it |
| `StrgTables.StringTable.Packed` | strg.py:118-122 | the packed table is the offsets as u32, then the strings of the pairs in sorted order, each with 00 00 |
| `StrgTables.StringTable.FromPacked` | strg.py:102-112 | the loop computes `StringTable.Decode` |
| `StrgTables.StringTable.StringReplaced` | strg.py:124-134 | `IndexError` exactly when there is no string at the index |
| `StrgTables.StringTable.WithStringReplaced` | strg.py:124-134 | the loop over the later offsets computes `StringReplaced` |
| `StrgTables.ReadStrings` | strg.py:106-111 | the loop computes `StringsAt` |
| `StrgTables.PackOffsets` | strg.py:120 | the offsets take four bytes each |
| `StrgTables.PackOffsetsAt` | strg.py:120 | offset k is packed into bytes 4k..4k+4 |
| `StrgTables.OffsetsRoundTrip` | strg.py:104-120 | reading packed offsets back gives the offsets |
| `StrgTables.OffsetsBytesRoundTrip` | strg.py:104-120 | packing the offsets read from a buffer gives back the 4n bytes they came from |
| `StrgTables.StringAt` | strg.py:108-110 | reading a string fails only for a missing 00 00 or an odd byte count |
| `StrgTables.InsertPlaced` | strg.py:121 | insertion adds the pair to the multiset of pairs and its size to the packed size |
| `StrgTables.SortPairs` | strg.py:121 | `sorted` keeps the multiset of pairs and their packed size |
| `StrgTables.StringLeTotal` | strg.py:121 | any two strings are ordered one way or the other |
| `StrgTables.InsertPlacedAscending` | strg.py:121 | inserting into an ascending list keeps it ascending |
| `StrgTables.SortPairsAscending` | strg.py:121 | `sorted` gives an ascending permutation of the (offset, string) pairs |
| `StrgTableFacts.StringReplacedShape` | strg.py:124-134 | for a table whose count, offsets and strings agree in number: offsets up to and including the index are kept; every later offset moves by the change in encoded length; only the string at the index changes; the count is kept; the packed size changes by that same amount |
| `StrgTableFacts.StringReplacedTwice` | strg.py:124-134 | replacing the same string twice equals replacing it once with the second string |
| `StrgTableFacts.StringAtLayout` | strg.py:108-110 | a string that reads back is encoded at its offset and ended by the first 00 00 pair after it |
| `StrgTableFacts.StringAtFromLayout` | strg.py:108-110 | conversely, a string encoded at an offset and ended by the first 00 00 pair is what is read there |
| `StrgTableFacts.StringTableDecodeLayout` | strg.py:102-112 | a decoded table holds `string_count` offsets read as u32 from the front, and each string is encoded at its offset |
| `StrgTableFacts.StringTablePackedSize` | strg.py:114-122 | a packed table is 4·count + Σ(2·units + 2) bytes |
| `StrgTableFacts.StringTablePackedOffsets` | strg.py:120 | a packed table starts with its offsets in index order |
| `StrgTableFacts.StringTablePackedStrings` | strg.py:121 | after the offsets come the strings in an ascending (offset, string) permutation of the pairs |
| `StrgTableFacts.StringTableRoundTripFails` | strg.py:108 | a table whose string ends in code unit 0x0100 packs to bytes that do not decode: the terminator search is not aligned to code units |
| `Strg.STRG.PackedPaddingSize` | strg.py:192-194 | the padding is below 32 bytes and brings the content to a multiple of 32 |
| `Strg.STRG.Packed` | strg.py:200-207 | packing succeeds exactly when every field fits its struct (otherwise `struct.error`), and is `packed_size` bytes long |
| `Strg.STRG.HeaderBytes` | strg.py:202 | the header is the four stored words, in order |
| `Strg.STRG.FromPacked` | strg.py:157-183 | the method computes `STRG.Decode` |
| `Strg.STRG.ReadTables` | strg.py:167-173 | the name table and the string-table loop compute `DecodeTables` |
| `Strg.STRG.GetStringTableByLanguageId` | strg.py:209-210 | `KeyError` exactly when no language entry has the tag; otherwise the string table at the last entry with that tag |
| `Strg.STRG.StringTableReplaced` | strg.py:212-228 | `KeyError` for an unknown tag, `struct.error` for a table that cannot be packed, success otherwise |
| `Strg.STRG.WithStringTableReplaced` | strg.py:212-228 | the method computes `StringTableReplaced` |
| `Strg.STRG.ReplaceTableAt` | strg.py:214-228 | the loop over the later language entries computes `TableReplacedAt` |
| `Strg.STRG.StringTableReplacedFixed` | strg.py:221 | the corrected replacement fails exactly when the tag is unknown or the new table cannot be packed, as the written one does |
| `Strg.LanguageTablesAt` | strg.py:161-165 | `n` language entries, entry k re-encoding to the 12 bytes at 16 + 12k |
| `Strg.LanguageTableAt` | strg.py:164 | the entry read at slot k has a four-byte tag and re-encodes to that slot |
| `Strg.ReadLanguageTables` | strg.py:161-165 | the loop fails with `struct.error` exactly when the entries do not fit after the header; otherwise it returns `LanguageTablesAt` |
| `Strg.LanguageIndexMap` | strg.py:151-155 | every tag maps to an entry carrying it, and every entry's tag is mapped |
| `Strg.LanguageIdToIndexMap` | strg.py:152-155 | the loop builds `LanguageIndexMap` |
| `Strg.LanguageIndexMapLast` | strg.py:151-155 | a tag is absent exactly when no entry carries it, and maps to the last entry that does |
| `Strg.StringTablesAt` | strg.py:170-173 | one string table per language entry |
| `Strg.ReadStringTables` | strg.py:170-173 | the loop computes `StringTablesAt` |
| `StrgFacts.StrgPackedSize` | strg.py:185-198 | `packed_size` is a multiple of 32, less than 32 bytes past the content |
| `StrgFacts.StrgPackedPadding` | strg.py:200-207 | `packed()` is the content followed only by 0xFF bytes |
| `StrgFacts.PackLanguageTablesAt` | strg.py:203 | language entry k is packed at 12k of the entry region |
| `StrgFacts.StrgPackedPrefix` | strg.py:200-203 | `packed()` begins with the header and the language entries |
| `StrgFacts.StrgPackedHeader` | strg.py:202 | `packed()` begins with the four stored header words |
| `StrgFacts.StrgPackedLanguageEntries` | strg.py:203 | every language entry is packed at 16 + 12k |
| `StrgFacts.StrgHeaderRoundTrip` | strg.py:200-202 | the header words read back from `packed()` are the stored ones |
| `StrgFacts.StrgLanguageTablesRoundTrip` | strg.py:161-165 | the language entries read back from `packed()` are the stored ones, when the stored count matches and every tag has four bytes |
| `StrgFacts.StrgDecodeHeader` | strg.py:157-165 | a decoded STRG holds the header words as read and one language entry per counted language, each re-encoding to its slot |
| `StrgFacts.StrgDecodeNameTable` | strg.py:167 | the name table is decoded from the bytes after the language entries |
| `StrgFacts.StrgDecodeStringTables` | strg.py:168-173 | string table k is decoded, with `string_count` offsets, from the `strings_size` bytes that lie `strings_offset` past the end of the name table |
| `StrgFacts.TableReplacedAtKeepsRest` | strg.py:224-228 | the replacement keeps the header fields and the name table |
| `StrgFacts.TableReplacedAtEntry` | strg.py:213-222 | entries before the index are unchanged; the entry at the index keeps its offset and takes the new size; each later offset becomes its own size plus the change |
| `StrgFacts.TableReplacedAtFixedEntry` | strg.py:221 | the same, except that the corrected later offsets move by the change |
| `StrgFacts.TableReplacedAtTables` | strg.py:227 | only the string table at the index is replaced |
| `StrgFacts.StringTableReplacedShape` | strg.py:212-228 | `with_string_table_replaced` by tag: the header and name table are untouched, the entries change as in `TableReplacedAtEntry`, and only that string table is replaced |
| `StrgFacts.StringTableReplacedFixedKeepsLayout` | strg.py:221 | with the corrected offsets, string tables that were back to back, starting at 0 and sized by their entries, stay so |
| `StrgFacts.TableReplacedAtFixedContiguous` | strg.py:219-222 | with the corrected offsets, each later table still starts where the one before it ends |
| `StrgFacts.StringTableReplacedBreaksLayout` | strg.py:221 | as written, a two-language STRG laid out back to back is no longer so after replacing the first table |
| `StrgFacts.StringTableReplacedFixedExample` | strg.py:221 | on the same input, the corrected replacement puts the second table right after the new first one |
| `PakRecords.NamedResourceTable.Packed` | pak.py:40-44 | the packed entry is 12 + len(name) bytes: the header words, then the name as stored |
| `PakRecords.NamedResourceTable.FromPacked` | pak.py:26-34 | decoding needs 12 bytes (otherwise `struct.error`), reads `name_length`, and takes up to that many name bytes after the header |
| `PakRecords.NamedResourceTableRoundTrip` | pak.py:17-44 | an entry with a four-byte tag, u32 fields and `name_length == len(name)` decodes to itself from its packed bytes, whatever follows them |
| `PakRecords.NamedResourceTableBytesRoundTrip` | pak.py:26-44 | a buffer holding the whole name re-encodes to the 12 + `name_length` bytes that were read |
| `PakRecords.ResourceTable.Packed` | pak.py:66-73 | a resource entry packs to exactly 20 bytes |
| `PakRecords.ResourceTable.FromPacked` | pak.py:57-60 | decoding succeeds exactly on 20 bytes (otherwise `struct.error`); any non-zero first word means compressed |
| `PakRecords.ResourceTableRoundTrip` | pak.py:47-73 | an entry with a four-byte tag and u32 fields decodes to itself from its packed bytes |
| `PakRecords.ResourceTableBytesRoundTrip` | pak.py:57-73 | 20 bytes re-encode to themselves exactly when the first word is 0 or 1 |
| `PakRecords.RepackedWhenFlagIsBit` | pak.py:57-73 | 20 bytes whose first word is 0 or 1 re-encode to themselves |
| `PakRecords.RepackedFlagIsBit` | pak.py:60-68 | whatever the first word read, the word written back is 0 or 1 |
| `PakRecords.UnimplementedResource.Packed` | pak.py:84-89 | `packed_size` is the length of the pass-through bytes |
| `PakRecords.UnimplementedResource.FromPacked` | pak.py:80-82 | the payload packs back to the bytes it was read from |
| `Pak.AssetClassFor` | pak.py:144-147 | the scan tree codec exactly for asset ID 0x95B61279; otherwise the class listed under the tag; the pass-through class when no class is listed |
| `Pak.Resource.AssetType` | pak.py:199 | a pass-through payload has no `asset_type` (`AttributeError`); a STRG's is "STRG" |
| `Pak.Resource.Packed` | pak.py:186 | packing a payload fails, with `struct.error`, exactly when the payload cannot be packed; otherwise it gives `packed_size` bytes |
| `Pak.DecodeResource` | pak.py:143-149 | the payload is decoded with the class `AssetClassFor` picks, from the `size` bytes at `offset`; only the string decoder can fail |
| `Pak.NamedTablesAt` | pak.py:127-132 | reading `n` more named entries yields `n` more entries, or `struct.error` |
| `Pak.ReadNamedTables` | pak.py:127-132 | the loop with its running offset computes `NamedTablesAt` from byte 12 |
| `Pak.NamedSpanAppend` | pak.py:132 | one more entry adds 12 + its `name_length` to the span |
| `Pak.ReadResourceTables` | pak.py:136-139 | the loop advancing 20 bytes per entry computes `ResourceTablesAt` |
| `Pak.ReadResources` | pak.py:141-149 | the loop over the entries computes `ResourcesAt`, whose meaning `PakLayout.ResourcesAtEach` states: payload k is the one decoded from entry k, and the first entry that fails decides the failure |
| `Pak.PackedPayloadsSize` | pak.py:186 | the padded payloads take `AlignedResourcesSize` bytes |
| `Pak.AssetIdIndexMap` | pak.py:117-121 | every ID maps to an entry carrying it, and every entry's ID is mapped |
| `Pak.AssetIdToIndexMap` | pak.py:118-120 | the loop builds `AssetIdIndexMap` |
| `Pak.AssetIdIndexMapLast` | pak.py:117-121 | an ID is absent exactly when no entry carries it, and maps to the last entry that does |
| `Pak.PAK.PaddingBeforeResourcesSize` | pak.py:170-172 | the padding is below 32 bytes and brings the content before the payloads to a multiple of 32 |
| `Pak.PAK.Packed` | pak.py:179-187 | packing succeeds exactly when every field fits its struct (otherwise `struct.error`); its length is the content, the padding, and each payload rounded up to 32 |
| `Pak.PAK.TablesBytes` | pak.py:181-184 | the content before the padding is `packed_content_before_resources_size` bytes |
| `Pak.PAK.HeaderBytes` | pak.py:181 | the header is the two u16 versions, then the u32 `unused` and named count |
| `Pak.PAK.DecodeTables` | pak.py:124-139 | a decoded PAK has as many named entries and resource entries as its counts say; every failure there is `struct.error`; where each part is read from is stated by `PakLayout.DecodeTablesLayout` |
| `Pak.PAK.FromPacked` | pak.py:123-160 | the three loops compute `PAK.Decode`, whose result `PakLayout.PakDecodeLayout` characterises: header words, named entries, the count after them, the entries after the count, and payload k decoded from entry k |
| `Pak.PAK.GetResourceByAssetId` | pak.py:189-190 | lookup fails only with `KeyError` or `IndexError` |
| `Pak.PAK.InsertionOffset` | pak.py:193-196 | the new entry's offset is missing (`IndexError`) exactly when appending with no entries, or when no entry is at the index |
| `Pak.PAK.Inserted` | pak.py:192-216 | insertion fails only with `IndexError` or `AttributeError` |
| `Pak.PAK.WithResourceInserted` | pak.py:192-216 | the loop over the later entries computes `Inserted` |
| `Pak.PAK.Appended` | pak.py:218-219 | appending fails only with `IndexError` or `AttributeError` |
| `Pak.PAK.Removed` | pak.py:221-234 | removal fails only with `IndexError` |
| `Pak.PAK.WithResourceRemoved` | pak.py:221-234 | the loop over the later entries computes `Removed` |
| `Pak.PAK.Replaced` | pak.py:239-241 | replacement fails only with `IndexError` or `AttributeError` |
| `Pak.PAK.ReplacedByAssetId` | pak.py:243-245 | replacement by ID fails only with `KeyError`, `IndexError` or `AttributeError` |
| `Pak.PAK.RemovedByAssetIdAsWritten` | pak.py:236-237 | as written, removal by ID never succeeds: it raises `KeyError` or `TypeError` |
| `Pak.PAK.RemovedByAssetId` | pak.py:236-237 | as intended, removal by ID fails only with `KeyError` or `IndexError` |
| `PakFacts.AssetIndexIsLast` | pak.py:117-121 | the map sends an ID to the last entry carrying it |
| `PakFacts.GetResourceByAssetIdMissing` | pak.py:189-190 | `KeyError` exactly when no entry carries the ID |
| `PakFacts.GetResourceByAssetIdLast` | pak.py:189-190 | otherwise the payload at the last entry with the ID (`IndexError` when there is none there) |
| `PakFacts.TablesInsertedAt` | pak.py:205-209 | after insertion at i, entries before i are kept, t is at i, and later ones are the old ones moved up with shifted offsets |
| `PakFacts.TablesRemovedAt` | pak.py:223-227 | after removal at i, entries before i are kept and later ones are the old ones moved down with offsets shifted back |
| `PakFacts.TablesReplacedAt` | pak.py:239-241 | removal then insertion at i keeps every earlier entry and moves every later one by the new size minus the old |
| `PakFacts.TablesInsertThenRemove` | pak.py:205-227 | removing the entry just inserted, with the same size, gives the entries back |
| `PakFacts.ShiftedBack` | pak.py:208-226 | shifting offsets forward and back by the same amount is the identity |
| `PakFacts.InsertedFails` | pak.py:192-203 | insertion fails exactly when there is no offset to take, or the payload has no `asset_type` |
| `PakFacts.InsertedKeepsRest` | pak.py:211-216 | insertion raises `resource_count` by one and keeps the header and the named entries |
| `PakFacts.InsertedEntry` | pak.py:193-203 | the new entry is uncompressed, carries the payload's type and unpadded size, and takes the offset of the entry at the index (or the end of the last one when appending) |
| `PakFacts.InsertedEntries` | pak.py:205-209 | entries before the index are kept; the later ones move up with offsets shifted by the new payload's unpadded size |
| `PakFacts.InsertedResources` | pak.py:215 | the new payload is spliced in at the index |
| `PakFacts.AppendedToEmptyFails` | pak.py:218-219 | appending to a PAK without entries fails with `IndexError` |
| `PakFacts.AppendedShape` | pak.py:218-219 | appending to a consistent PAK adds the entry, starting where the last entry ends, and the payload at the end, and raises the count by one |
| `PakFacts.RemovedFails` | pak.py:221-222 | removal fails exactly when there is no payload at the index, with `IndexError` |
| `PakFacts.RemovedKeepsRest` | pak.py:229-234 | removal lowers `resource_count` by one, drops the payload at the index, and keeps the header and the named entries |
| `PakFacts.RemovedEntries` | pak.py:223-227 | entries before the index are kept; later ones move down with offsets shifted back by the removed payload's size |
| `PakFacts.InsertThenRemove` | pak.py:192-234 | removing what was just inserted gives back the original PAK |
| `PakFacts.ReplacedFails` | pak.py:239-241 | in a consistent PAK, replacement succeeds exactly when the index names a payload, the new one has an `asset_type`, and the PAK has more than one entry when the index is the last: reinserting at the new count takes its offset from the entry before |
| `PakFacts.ReplacedResources` | pak.py:239-241 | replacement keeps the count and the named entries, and changes only the payload at the index |
| `PakFacts.ReplacedEntry` | pak.py:239-241 | the entry at the index keeps its asset ID and takes the new payload's type and size, uncompressed |
| `PakFacts.ReplacedEntries` | pak.py:239-241 | earlier entries are kept; later entries move by the new size minus the old |
| `PakFacts.ReplacedByAssetIdMissing` | pak.py:243-245 | `KeyError` exactly when no entry carries the ID |
| `PakFacts.ReplacedByAssetIdLast` | pak.py:243-245 | otherwise it is `with_resource_replaced` at the last entry with the ID |
| `PakFacts.RemovedByAssetIdAsWrittenFails` | pak.py:236-237 | as written, removal by ID always fails, with `TypeError` exactly when some entry carries the ID |
| `PakFacts.RemovedByAssetIdLast` | pak.py:236-237 | as intended, removal by ID removes the last entry with the ID, and succeeds where the written one raises `TypeError` |
| `PakLayout.ResourcesSizeBound` | pak.py:174-177 | the unpadded payload sizes never exceed the padded ones, and equal them exactly when every size is a multiple of 32 |
| `PakLayout.PackedLayout` | pak.py:179-187 | `packed()` is a multiple of 32 long: the header and entries, 0x00 up to a multiple of 32, then the padded payloads |
| `PakLayout.PackedPayloadRegion` | pak.py:185-186 | the padded payloads fill `packed()` from the end of the 0x00 padding on |
| `PakLayout.PackedSizeBound` | pak.py:174-177 | `packed_size` never exceeds `len(packed())`, and equals it exactly when every payload size is a multiple of 32 |
| `PakLayout.ResourceOffsetAligned` | pak.py:185-186 | every payload starts at a multiple of 32 in `packed()` |
| `PakLayout.PayloadAt` | pak.py:186 | in a region of padded payloads, payload k with its 0xFF padding follows the padded payloads before it |
| `PakLayout.PackedResourceAt` | pak.py:186 | in `packed()`, payload k is its `packed()` bytes and 0xFF padding, right after the padded payloads before it |
| `PakLayout.NamedTablesAtStep` | pak.py:130-132 | one named entry is read at the offset, and reading goes on 12 + its `name_length` further |
| `PakLayout.NamedTablesAtAdvance` | pak.py:127-132 | decoding the named entries from an offset ends at that offset plus Σ(12 + `name_length`) of the entries read |
| `PakLayout.ResourceTablesAtSlots` | pak.py:134-139 | every resource entry read lies in the 20 bytes at start + 20k, is compressed exactly when that slot's first word is non-zero, and re-encodes to the slot exactly when that word is 0 or 1 |
| `PakLayout.SlotRoundTrip` | pak.py:57-60 | the same two facts for one entry decoded from the 20 bytes at some offset |
| `PakLayout.ResourcesAtEach` | pak.py:141-149 | decoding the payloads succeeds exactly when every entry's payload decodes; payload k is then the one decoded from entry k; otherwise the failure is that of the first entry that fails |
| `PakLayout.ResourcesAtDecoded` | pak.py:143-149 | a successful payload decoding has payload k decoded from entry k |
| `PakLayout.ResourcesAtFirstFailure` | pak.py:143-149 | a failed payload decoding fails with the error of the first entry whose payload does not decode, every earlier one decoding |
| `PakLayout.DecodeTablesHeader` | pak.py:124-132 | the four header words are the `>HHII` values at bytes 0..12, and the named entries are the `named_resource_count` ones read from byte 12, ending at 12 + Σ(12 + `name_length`) |
| `PakLayout.DecodeTablesEntries` | pak.py:133-139 | `resource_count` is the u32 right after the named entries, and entry k is decoded from the 20 bytes 4 + 20k past that point, all inside the buffer |
| `PakLayout.DecodeTablesLayout` | pak.py:124-139 | both of the above for everything read before the payloads, with no payloads yet |
| `PakLayout.PakDecodeLayout` | pak.py:123-160 | a decoded PAK has the header words, named entries, resource count and entries at the positions above, one payload per entry, and payload k is entry k's bytes decoded with the class its entry selects |

## Left out

- The DGRP, DUMB, HINT, SCAN and ScanTree codecs (pak.py:6-11) are not part of this model. Their payloads are `Resource.Foreign`: opaque bytes that never fail to decode, that pack back to themselves, and whose `asset_type` is the tag they were found under.
- The `util` helpers (pak.py:12) are not part of this model. `unpack_int` is taken to be ">I", like `pack_int`. `unpack_ascii` and `pack_ascii` are taken to pass bytes through.
- ASCII and UTF-16 validation is not modelled. Tags and names are byte strings, so a non-ASCII byte in a tag or name is kept rather than raising. Strings are code-unit sequences, so lone surrogates are accepted.
- Python compares strings by code point, but `StrgTables.StringLe` compares by UTF-16 code unit. The two orders agree on strings without surrogate pairs.
- Indices are `nat`, so Python's negative indices are not modelled.
- `Pak.PAK.Appended`: a negative `resource_count` is treated as 0.
- Compression is not modelled; the source never implements it (pak.py:198).
- `Pak.Resource.PackedSize` and `Strg.STRG.PackedSize` are arithmetic. The source's `packed_size` on records calls `len(packed())` and can raise `struct.error`; the model does not, though `Pak.Resource.Packed` and `Strg.STRG.Packed` do fail in those cases.
- There is no decode∘encode round trip for a whole PAK, its named-entry array or its resource-entry array. Decoding a whole STRG is not proved to invert packing either. Round trips are proved per record, for STRG's header and language entries, and for the string table's offsets. `PakLayout` states where `packed()` puts each part.
- A general string-table round trip does not hold: `StrgTableFacts.StringTableRoundTripFails` shows the terminator search matching across code units.
- `PakFacts.ReplacedFails`: stated only for a PAK whose `resource_count`, entries and payloads agree in number (`PakFacts.Consistent`); the source does not demand this, but a PAK whose counts disagree has no single meaning for these edits.
- `PakFacts.ReplacedResources`: stated only for a PAK whose `resource_count`, entries and payloads agree in number (`PakFacts.Consistent`); the source does not demand this, but a PAK whose counts disagree has no single meaning for these edits.
- `PakFacts.ReplacedEntry`: stated only for a PAK whose `resource_count`, entries and payloads agree in number (`PakFacts.Consistent`); the source does not demand this, but a PAK whose counts disagree has no single meaning for these edits.
- `PakFacts.ReplacedEntries`: stated only for a PAK whose `resource_count`, entries and payloads agree in number (`PakFacts.Consistent`); the source does not demand this, but a PAK whose counts disagree has no single meaning for these edits.
- `PakFacts.AppendedShape`: stated only for a PAK whose `resource_count`, entries and payloads agree in number (`PakFacts.Consistent`); the source does not demand this, but a PAK whose counts disagree has no single meaning for these edits.

## Findings

| source | as written | input that shows it | evidently intended | confidence | as-written member | corrected member |
|---|---|---|---|---|---|---|
| strg.py:221 | a later language entry's `strings_offset` becomes its own `strings_size` plus the change in size | two languages with tables of 8 and 6 bytes at offsets 0 and 8; the first table is replaced by a 6-byte one; the second entry's offset becomes 6 − 2 = 4 instead of 6 (`StrgFacts.StringTableReplacedBreaksLayout`) | the offset moves by the change in size, `strings_offset + size_diff`, so back-to-back tables stay back to back (`StrgFacts.StringTableReplacedFixedKeepsLayout`) | high; not executed | `Strg.STRG.StringTableReplaced` | `Strg.STRG.StringTableReplacedFixed` |
| pak.py:237 | `self.with_resource_removed(self, index)` passes `self` twice, so every present ID raises `TypeError` (`PakFacts.RemovedByAssetIdAsWrittenFails`) | any PAK with an entry carrying the ID | removal at the index the map gives (`PakFacts.RemovedByAssetIdLast`) | high; not executed | `Pak.PAK.RemovedByAssetIdAsWritten` | `Pak.PAK.RemovedByAssetId` |

The STRG methods model the code as written: `Strg.STRG.WithStringTableReplaced` computes `Strg.STRG.StringTableReplaced`. The corrected replacement stands beside it.
