# numbers-parser, modelled in Dafny

numbers-parser reads and writes Apple Numbers documents. A document is a zip package of IWA
archive files. Each archive is a run of Snappy-framed chunks holding protobuf messages, each
with an object identifier. Those objects reference one another to form the document's tables,
cells, merges, styles and formulas. This project models the core of that code in Dafny and
proves properties about it:

- **Archives.** The IWA chunk framing and archive segment length fix-up (`Iwa`; the copy in
  keynote_parser's codec is `KeynoteCodec`), and the object stores and item lists
  (`Containers`, `LegacyContainers`). Identifiers (`Uuid`) and the memoising cache
  (`NumbersCache`).
- **Cells.** The cell storage buffer: decoding, the cell's `_to_buffer` and their round trip
  (`CellCodec`, `CellTypes`, `Decimal128`). The per-row storage buffers and their offsets
  (`RowStorage`, `Bytes`), the legacy reader's cell extraction (`LegacyDocument`), and the
  tiles a table is saved in (`Tiles`).
- **Formatting.** Base and two's-complement number formats (`BaseFormat`), quoted-text and
  date-format scanning (`CellFormat`), duration units, formatting, colour and alignment
  validation (`FormatOptions`), bullets and Roman numerals (`Bullets`, `Roman`), borders and
  strokes (`Borders`, `Strokes`), and the font name map (`FontNames`).
- **Tables.** The merge register and the packing of merge ranges (`Merges`). The table grid
  with row and column insertion and deletion, header setters and `merge_cells` (`TableGrid`).
  Data lists (`DataLists`) and the formula owner ranges (`FormulaOwners`).
- **References and formulas.** A1 notation (`A1Notation`) and scoped header names
  (`NameScopes`). Reference nodes (`NodeRefs`) and how a reference is written into formula
  text (`RefText`). The formula tokenizer and its range parser (`Tokenizer`, `NumbersRange`),
  the infix-to-RPN conversion (`Rpn`), the stack renderer that turns an AST back into formula
  text (`Formula`), and the archives written for literals and cell references
  (`FormulaArchives`).
- **Tools and helpers.** The CSV converter's column operations (`Csv2Numbers`), the unpacker's
  UUID prettifier and file filters (`UnpackNumbers`), Keynote text replacement
  (`Replacement`, `ReplacementRules`, `JsonValues`), surrogate-pair handling
  (`UnicodeUtils`) and the macOS app version comparison (`AppVersion`). `Outcomes`, `Decimal`
  and `Text` are shared helpers: Python's exceptions as a `Result`, decimal digits, and string
  utilities.

Python's exceptions are modelled as the `Err` case of `Outcomes.Result`, named after the
exception class. A `defaultdict`, a slice or a regular expression is written out as a
function with the same behaviour. Where the code updates an object in place, the model is a
class whose methods state the new state. Code that only computes a value is modelled as
functions and lemmas. Snappy, varint and protobuf encoding, file I/O, float parsing and the
date parser are parameters of the functions that use them.

Every row below cites the source lines of the repository as of this model. Paths starting
with `src/numbers_parser/` are the current package. Paths starting with `numbers_parser/` and
`keynote_parser/` are the legacy package and the Keynote tool it grew from.

## Model

| member | source | states |
|---|---|---|
| Uuid.NumbersUuid | src/numbers_parser/numbers_uuid.py:8-38 | a UUID message combines to upper·2^64 + lower, a CFUUID message to w3·2^96 + w2·2^64 + w1·2^32 + w0, any other init type is an UnsupportedError |
| Uuid.CheckRange | src/numbers_parser/numbers_uuid.py:12 | `UUID(int=v)` accepts exactly the values 0 ≤ v < 2^128 and keeps them |
| Uuid.FromHalvesValue | src/numbers_parser/numbers_uuid.py:16 | `upper << 64 \| lower` with a 64-bit lower half is upper·2^64 + lower, below 2^128 |
| Uuid.FromWordsValue | src/numbers_parser/numbers_uuid.py:19-21 | `w3 << 96 \| w2 << 64 \| w1 << 32 \| w0` with 32-bit words is their positional sum, below 2^128 |
| Uuid.BitOrDisjoint | src/numbers_parser/numbers_uuid.py:16 | or-ing a value shifted by k bits with one below 2^k is addition |
| Uuid.DictDispatch | src/numbers_parser/numbers_uuid.py:23-36 | a dict with w0/w1 (and w2/w3) takes the word form, else one with upper/lower the half form, any other dict is an UnsupportedError |
| Uuid.Halves | src/numbers_parser/numbers_uuid.py:40-44 | `dict2`/`protobuf2`: the upper and lower halves recombine to the UUID |
| Uuid.Words | src/numbers_parser/numbers_uuid.py:46-57 | `dict4`/`protobuf4`: the four 32-bit words, high to low, recombine to the UUID |
| Uuid.HalvesRoundTrip | tests/test_uuids.py:16-19 | building from the two-half form (message or dict) gives the UUID back |
| Uuid.WordsRoundTrip | tests/test_uuids.py:16-24 | building from the four-word form (message or dict) gives the UUID back |
| Uuid.UuidOfRef | src/numbers_parser/utils.py:17-28 | `uuid(ref)` refuses exactly the messages without UUID fields, with UnsupportedError |
| Uuid.UuidOfRefAgrees | src/numbers_parser/utils.py:18-26 | `utils.uuid` and the `NumbersUUID` constructor give the same integer for the same fields |
| Uuid.HexRoundTrip | src/numbers_parser/numbers_uuid.py:13-14 | the 32-digit hex form of a UUID is accepted by the string constructor and reads back as the same UUID |
| Uuid.Examples | tests/test_uuids.py:26-37 | an {a, b} dict and a float are UnsupportedError; {upper: 0x1234, lower: 0xFFFF} is 0x1234·2^64 + 0xFFFF |
| Iwa.ReferencesComplete | src/numbers_parser/iwafile.py:287-301 | `find_references` collects exactly the identifiers of the `Reference` messages reached through set fields, repeated fields and nested messages |
| Iwa.Attr | src/numbers_parser/iwafile.py:340 | `getattr(m, name, None)` is set exactly when the message has a field of that name, and then is that field's value |
| Iwa.FindExtension | src/numbers_parser/iwafile.py:334-341 | `find_extension` is the attribute of the first extension that has it, and an IndexError exactly when no extension has it |
| Iwa.FirstWith | src/numbers_parser/iwafile.py:340-341 | the first extension having the attribute: none before it has it |
| Iwa.IsIwaFile | src/numbers_parser/iwafile.py:318-331 | `is_iwa_file`'s loop is true exactly when the data is an exact run of frames, each a 0x00 byte and a 3-byte little-endian length |
| Iwa.FramedIffWalked | src/numbers_parser/iwafile.py:318-331 | the frame lengths plus four per frame add up to the data's length exactly when the data is framed |
| Iwa.Pieces | src/numbers_parser/iwafile.py:108-111 | the pieces `to_buffer` compresses join back to the data; each is non-empty and at most 65536 bytes, and all but the last are exactly 65536 |
| Iwa.FrameOf | src/numbers_parser/iwafile.py:113 | a frame is 0x00, the first three little-endian bytes of the payload's length, then the payload; a length below 2^24 reads back from the header |
| Iwa.ChunkToBuffer | src/numbers_parser/iwafile.py:106-114 | `IWACompressedChunk.to_buffer`'s loop frames the compressed 64 KiB pieces in order |
| Iwa.DecompressAll | src/numbers_parser/iwafile.py:65-87 | `_decompress_all`'s loop computes the joined payloads, each decompressed or kept as it is when decompression fails, and a ValueError at a frame not starting with 0x00 |
| Iwa.ChunkRoundTrip | src/numbers_parser/iwafile.py:65-114 | when Snappy inverts itself, unframing a framed chunk gives back the uncompressed bytes, and the framed bytes pass `is_iwa_file` |
| Iwa.FramesFramed | src/numbers_parser/iwafile.py:113 | frames of payloads shorter than 2^24 bytes form framed data |
| Iwa.HeaderToDict | src/numbers_parser/iwafile.py:240-244 | `header_to_dict` keeps the identifier, the merge flag and every message info but drops its length |
| Iwa.DictToHeader | src/numbers_parser/iwafile.py:253-257 | `dict_to_header` sets every message info's length to 0 |
| Iwa.DictRoundTrip | src/numbers_parser/iwafile.py:240-257 | a dict read into a header and written back is the same dict |
| Iwa.HeaderRoundTrip | src/numbers_parser/iwafile.py:240-257 | a header written as a dict and read back loses only its lengths |
| Iwa.FixedLengths | src/numbers_parser/iwafile.py:213-218 | the `zip` loop sets each message info paired with an object to that object's serialized length and leaves unpaired infos alone |
| Iwa.SplitObjectsOfFixed | src/numbers_parser/iwafile.py:164-194 | with the lengths `to_buffer` writes, `IWAArchiveSegment.from_buffer` cuts exactly the serialized objects back off and leaves the rest |
| Iwa.ArchiveSegment.constructor | src/numbers_parser/iwafile.py:141-144 | a segment keeps its header and objects |
| Iwa.ArchiveSegment.ToBuffer | src/numbers_parser/iwafile.py:210-229 | `to_buffer` fixes up the message infos' lengths in place and emits varint(header size), the header and the serialized objects in order |
| Iwa.CompressedChunk.constructor | src/numbers_parser/iwafile.py:58-60 | a chunk keeps its archives |
| Iwa.IwaFile.constructor | src/numbers_parser/iwafile.py:24-26 | a file keeps its chunks |
| Iwa.CopyInto | src/numbers_parser/iwafile.py:305-315 | for a matching archive the first object becomes `obj` (an IndexError without objects, a TypeError between message types), and when `obj` holds references the first message info's `object_references` become exactly those references; otherwise the header is kept |
| Iwa.CopyIntoIdempotent | src/numbers_parser/iwafile.py:304-315 | copying the same object a second time changes nothing |
| Iwa.CopyObjectToIwaFile | src/numbers_parser/iwafile.py:304-315 | every archive of the first chunk whose identifier matches is updated as `CopyInto` says and every other archive is untouched; no chunk is an IndexError |
| Iwa.CreateIwaSegment | src/numbers_parser/iwafile.py:268-284 | the new segment holds the object under the id with one message info of its type id, version 1.0.5 and length 0; an unknown type is a KeyError |
| KeynoteCodec.PatchFromString | keynote_parser/codec.py:142-157 | `ProtobufPatch.FromString` raises NotImplementedError unless there is exactly one diff path and no field to remove, a KeyError for an unknown field or class, and otherwise parses the data as the patched field's message type |
| KeynoteCodec.Clamped | keynote_parser/codec.py:270-283 | the clamp keeps every key in place and the dict's length |
| KeynoteCodec.ClampedBounded | keynote_parser/codec.py:270-283 | after the clamp no float reachable through nested dicts is above MAX_FLOAT |
| KeynoteCodec.ClampedKeepsBounded | keynote_parser/codec.py:270-283 | a dict whose floats are all in range is left exactly as it was |
| KeynoteCodec.ClampIdempotent | keynote_parser/codec.py:270-283 | clamping twice is clamping once |
| KeynoteCodec.ClampFloats | keynote_parser/codec.py:277-283 | the loop over the dict's items computes `Clamped`, recursing into nested dicts |
| KeynoteCodec.ClampedAt | keynote_parser/codec.py:277-282 | each entry keeps its key and has its value clamped |
| Bytes.SliceBound | src/numbers_parser/cell_storage.py:170 | a Python slice bound counts negative indices from the end and clamps into [0, len] |
| Bytes.Slice | src/numbers_parser/cell_storage.py:170 | `s[start:end]` is the plain subsequence for in-range bounds and empty when the bounds cross |
| Bytes.LittleEndianOfBytes | src/numbers_parser/model.py:1154 | an integer below 256^n written as n little-endian bytes reads back as itself |
| Bytes.BytesOfLittleEndian | src/numbers_parser/model.py:1154 | n bytes read as an integer and written back are the same bytes |
| Bytes.Signed | src/numbers_parser/cell_storage.py:164 | the two's-complement reading of an n-byte pattern lies in the signed range and differs from the unsigned one by 0 or 256^n |
| Bytes.Unpack | src/numbers_parser/cell_storage.py:164 | `struct.unpack("<i"/"<I", …)` needs exactly n bytes (otherwise struct.error) and gives the little-endian value, signed or not |
| Bytes.Pack | src/numbers_parser/model.py:1154 | `struct.pack` is a struct.error for an integer out of range, and otherwise n bytes holding its little-endian two's-complement pattern |
| Bytes.UnpackPack | src/numbers_parser/model.py:1154 | a packed integer unpacks to itself |
| Bytes.PackUnpack | src/numbers_parser/model.py:1154 | n unpacked bytes pack back to the same bytes |
| Bytes.Int16Array | src/numbers_parser/model.py:2596 | `array("h", bs).tolist()` is a ValueError for an odd length and otherwise one signed 16-bit little-endian value per byte pair |
| Bytes.PackInt16s | src/numbers_parser/model.py:1154 | `pack(f"<{n}h", …)` succeeds exactly when every value fits 16 signed bits, giving two bytes per value |
| Bytes.Int16ArrayOfPacked | src/numbers_parser/model.py:1128-1159 | packed 16-bit offsets read back as the same list |
| Containers.FindNamed | src/numbers_parser/containers.py:20-24 | a string key finds an item exactly when some item has that name, and then an item of that name; otherwise KeyError |
| Containers.IndexAsWritten | src/numbers_parser/containers.py:13-19 | the int branch as written: the length is added once to a negative key and only `key >= len` is refused (see Findings) |
| Containers.Index | src/numbers_parser/containers.py:13-19 | the intended int lookup succeeds exactly for −len ≤ key < len, giving `items[key]` or `items[len + key]`, and is an IndexError otherwise |
| Containers.IndexAsWrittenAgrees | src/numbers_parser/containers.py:13-19 | for keys from −len on, the code as written is the intended indexing |
| Containers.IndexAsWrittenWrapsTwice | tests/test_tables.py:51-62 | with three items, key −4 gives the last item as written instead of an IndexError |
| Containers.GetItem | src/numbers_parser/containers.py:13-27 | `__getitem__`: ints (and bools, which are ints) by position, strings by first matching name, anything else a LookupError |
| Containers.HasName | src/numbers_parser/containers.py:32-33 | `__contains__` is true exactly when some item's name equals the key after lower-casing both |
| Containers.ContainsFindable | src/numbers_parser/containers.py:20-33 | every name that looks an item up is contained in the list, and containment does not depend on the key's case |
| Containers.ItemsList.constructor | src/numbers_parser/containers.py:9-11 | the list keeps the items and the lower-cased class name |
| Containers.ItemsList.Get | src/numbers_parser/containers.py:13-27 | `__getitem__` on the list's items, with the intended handling of negative keys |
| Containers.ItemsList.Has | src/numbers_parser/containers.py:32-33 | `__contains__` compares lower-cased names |
| Containers.ItemsList.Append | src/numbers_parser/containers.py:35-36 | `append` adds the item at the end and changes nothing else |
| Containers.RoundUpToBlock | src/numbers_parser/containers.py:54 | `math.ceil(m / 1000000) * 1000000` is the least multiple of a million that is not below m |
| Containers.MaxId | src/numbers_parser/containers.py:53 | `max` of a non-empty list is in the list and not below any element |
| Containers.ShortName | src/numbers_parser/containers.py:114 | `type(v).__name__` holds no "." |
| Containers.WithField | src/numbers_parser/containers.py:59 | setting a message field keeps the message's type and extensions, and reading the field back gives the new value |
| Containers.FirstContaining | src/numbers_parser/containers.py:67-68 | the first stored path containing `iwa_file`, or None exactly when no path contains it |
| Containers.FormatFills | src/numbers_parser/containers.py:74 | `iwa_file.format(new_id)` puts the id's decimal digits in place of "{}" and leaves a template without braces as it is |
| Containers.FilterRefs | src/numbers_parser/containers.py:113-114 | the comprehension keeps exactly the ids whose object's class name is the one asked for |
| Containers.ObjectStore.Empty | src/numbers_parser/containers.py:41-44 | a new store holds no objects, files or file mapping |
| Containers.ObjectStore.StoreFile | src/numbers_parser/containers.py:99-100 | `_store_file` sets one file and keeps the dict's insertion order; nothing else changes |
| Containers.ObjectStore.StoreObject | src/numbers_parser/containers.py:95-97 | `_store_object` sets the object and its file name and keeps the insertion order; nothing else changes |
| Containers.ObjectStore.Load | src/numbers_parser/containers.py:40-54 | after the reader's callbacks, the store holds exactly the reported objects and its first id is a multiple of a million; no objects at all is a ValueError from `max` |
| Containers.ObjectStore.NewMessageId | src/numbers_parser/containers.py:56-60 | `new_message_id` increases the largest id by one, returns it (never a stored id) and records it as the package's `last_object_identifier`; no package object is a KeyError |
| Containers.ObjectStore.CreateObjectFromDict | src/numbers_parser/containers.py:62-82 | the object is stored under a fresh id and mapped to the first file whose path contains `iwa_file` (its first chunk gains, at its end, a segment holding just the object under a header for the new id, and no other file changes; a matching file without chunks raises IndexError) or to a new file named from the template and the id |
| Containers.ObjectStore.AppendSegment | src/numbers_parser/containers.py:77-78 | the file's first chunk gains the segment at its end and nothing else in the store changes; a file without chunks is an IndexError |
| Containers.ObjectStore.Get | src/numbers_parser/containers.py:106-107 | `__getitem__` gives the stored object, a KeyError for an unknown id |
| Containers.ObjectStore.FindRefs | src/numbers_parser/containers.py:113-114 | `find_refs` lists, once each, exactly the ids whose object's class name is the one asked for |
| LegacyContainers.GetItem | numbers_parser/items_list.py:6-18 | an int key succeeds exactly in [0, len) and is an IndexError otherwise, negatives included; a str key is the first item of that name or a KeyError; a bool or any other type is a LookupError (`type(key) == int`) |
| LegacyContainers.GenerationsAgree | numbers_parser/containers.py:27-39 | the first-generation lookup agrees with the later one on non-negative ints and on strings, and refuses every negative int |
| LegacyContainers.AddArchives | numbers_parser/containers.py:64-76 | the archive loop fails with FileFormatError exactly when some archive holds no object or repeats a known identifier; otherwise it keeps what was stored and adds exactly the one-object archives under their identifiers |
| LegacyContainers.BuildFrom | numbers_parser/containers.py:52-78 | every file must have exactly one chunk, and every archive kept holds at least one object; any violation is a FileFormatError |
| LegacyContainers.ObjectStore.Load | numbers_parser/containers.py:46-78 | the constructor's nested loops succeed exactly when `BuildFrom` does, and store exactly its objects |
| LegacyContainers.ObjectStore.FindRefs | numbers_parser/containers.py:86-88 | `find_refs` keeps exactly the stored ids whose object's class name matches |
| LegacyDocument.ExtractAsWritten | numbers_parser/document.py:144-162 | `extract_cell_data` as written: odd offset bytes are a ValueError, too few offsets an IndexError, otherwise exactly `num_cols` cells, None for a negative offset and a slice ending one byte before the next non-negative offset (or at len − 1) |
| LegacyDocument.ExtractCellData | numbers_parser/document.py:144-162 | the column loop computes `ExtractAsWritten` |
| LegacyDocument.CutAsWritten | numbers_parser/document.py:148-160 | one pass of the loop: None for a negative offset, otherwise the slice as written |
| LegacyDocument.ExtractCorrected | numbers_parser/document.py:144-162 | the intended cut has the same errors and length, with each cell running up to the next cell's start or the buffer's end |
| LegacyDocument.CorrectedIsRowBuffers | src/numbers_parser/model.py:2575-2623 | the intended cut is what the later reader's `get_storage_buffers_for_row` returns for 16-bit offsets |
| LegacyDocument.CorrectedPartitions | numbers_parser/document.py:144-162 | with ascending offsets starting at 0 and covering every column, the intended cells laid end to end are the whole buffer |
| LegacyDocument.AsWrittenDropsLastByte | numbers_parser/document.py:155-161 | each cell cut as written is the intended cell without its last byte |
| LegacyDocument.AsWrittenExample | numbers_parser/document.py:155-161 | cells at offsets 0 and 2 of [1, 2, 3, 4] come out as [1] and [3] as written, [1, 2] and [3, 4] as intended |
| LegacyDocument.Double | numbers_parser/document.py:115 | `struct.unpack("<d", b[i:j])` needs exactly eight bytes, otherwise struct.error |
| LegacyDocument.DecodeCell | numbers_parser/document.py:109-130 | version ≠ 5 is an UnsupportedError; the type byte picks the field: numbers and dates from bytes 24-32 of the pre-BNC buffer, text by key from the string table, booleans and durations from bytes 12-20; an unknown type is an UnsupportedError |
| LegacyDocument.RowValues | numbers_parser/document.py:105-131 | a row read left to right has one entry per cell, None exactly where the cell has no storage, and any stored cell required version 5 |
| LegacyDocument.ReadRow | numbers_parser/document.py:105-131 | the column loop computes `RowValues` |
| LegacyDocument.ReadRowInfo | numbers_parser/document.py:95-131 | one row pass cuts both buffers and reads the cells, as `RowData` |
| LegacyDocument.RowData | numbers_parser/document.py:95-131 | a row that reads has exactly `num_cols` entries |
| LegacyDocument.DataOf | numbers_parser/document.py:88-133 | `Table.data` has one row per row header and `num_cols` entries per row; more row headers than row infos is an error |
| LegacyDocument.Table.constructor | numbers_parser/document.py:135-141 | the table keeps its header lists, its row infos and the string table |
| LegacyDocument.Table.Data | numbers_parser/document.py:88-141 | `Table.data` computes `DataOf` with `num_rows` and `num_cols` the header lists' lengths |
| NumbersCache.CacheKey | src/numbers_parser/numbers_cache.py:37 | the key is the first `num_args` arguments joined by "."; fewer positional arguments is an IndexError |
| NumbersCache.KeyIgnoresLaterArguments | src/numbers_parser/numbers_cache.py:37 | arguments after the first `num_args` do not affect the key |
| NumbersCache.KeyInjective | src/numbers_parser/numbers_cache.py:37 | when no keyed argument prints with a ".", equal keys mean equal keyed arguments |
| NumbersCache.KeyCollision | src/numbers_parser/numbers_cache.py:37 | ("a.b", "c") and ("a", "b.c") share the key "a.b.c" |
| NumbersCache.Cacheable.constructor | src/numbers_parser/numbers_cache.py:5-9 | every instance starts with its own empty cache |
| NumbersCache.Cacheable.Call | src/numbers_parser/numbers_cache.py:33-52 | the first call with a key computes and stores the result, a later call returns the stored value without computing; `num_args=0` stores once per method name |
| NumbersCache.Cacheable.Lookup | src/numbers_parser/numbers_cache.py:38-48 | the stored result for a method and its key, present exactly when a call stored one |
| CellCodec.TestBitWord | src/numbers_parser/cell.py:1113 | bit k of the flags word packed from a list of bits is that list's k-th bit; every bit past the list is clear |
| CellCodec.SetCount | src/numbers_parser/cell.py:875 | `bin(flags & mask).count("1")`: the number of set bits among the masked bits, never more than the mask has |
| CellCodec.StepAt | src/numbers_parser/cell.py:835-893 | one `if flags & bit:` block: it reads a field and moves past it when the bit is set, and never moves the offset backwards |
| CellCodec.Walk | src/numbers_parser/cell.py:831-899 | the field walk starts at offset 12 with nothing read, and an offset it reaches is never below 12 |
| CellCodec.ReadFields | src/numbers_parser/cell.py:831-899 | the loop over a decoder's `if flags & bit:` blocks returns exactly the fields and offset of the walk, including the error of the first field that cannot be read |
| CellCodec.ReadStep | src/numbers_parser/cell.py:835-893 | one block of the loop gives what `StepAt` gives |
| CellCodec.WalkFailed | src/numbers_parser/cell.py:835-893 | once a field read raises, the walk's result is that error whatever follows |
| CellCodec.KindOf | src/numbers_parser/cell.py:901-922 | a cell-type byte gives a class exactly when it is one of the nine known codes, currency (10) included |
| CellCodec.Decode | src/numbers_parser/cell.py:820-933 | `_from_storage`: a version other than 5 is unsupported; an unknown cell type after a successful walk is unsupported; a decoded cell has a known type byte, exactly the fields the walk read, seconds when it is a date and a double when it is a bool or duration |
| CellCodec.FromStorage | src/numbers_parser/cell.py:820-933 | the imperative decoder returns what `Decode` states, errors included |
| CellCodec.StorageKindOf | src/numbers_parser/cell_storage.py:233-263 | `CellStorage.__init__`'s cell types: the same known codes as `_from_storage`, never currency, with code 10 read as a number |
| CellCodec.DecodeStorage | src/numbers_parser/cell_storage.py:156-263 | no buffer leaves every field unset; a version other than 5 is unsupported; a decoded cell has its known type and exactly the fields of the walk that skips the control and suggest ids (mask 0x1D00); an unknown type after a successful walk is unsupported |
| CellCodec.NewCellStorage | src/numbers_parser/cell_storage.py:156-263 | the imperative `CellStorage.__init__` returns what `DecodeStorage` states |
| CellCodec.StorageAgreesWithCell | src/numbers_parser/cell_storage.py:205-206 | every buffer `_from_storage` decodes, `CellStorage.__init__` decodes too: the same fields except the control and suggest ids it skips, and the same type except that currency becomes number |
| CellCodec.StorageWalkAgrees | src/numbers_parser/cell_storage.py:193-225 | skipping bits 8, 10, 11 and 12 in one go ends at the same offset as reading the control id (0x400) and suggest id (0x1000) and then skipping bits 8 and 11 |
| CellCodec.MiddleSteps | src/numbers_parser/cell.py:865-875 | reading the control and suggest ids and then skipping 0x900 advances as far as skipping 0x1D00, and adds only those two ids |
| CellCodec.ValuePartOf | src/numbers_parser/cell.py:1000-1049 | the value part `_to_buffer` writes: a number that decimal128 cannot hold is a ValueError; rich text with no rich id is a struct error; a merged or unsupported cell writes nothing; the value's flag bit is one of bits 0 to 3 |
| CellCodec.IdField | src/numbers_parser/cell.py:1055-1108 | an id is written as `pack("<i", id)` when the cell carries it and not at all when it is None; an id outside the 32-bit signed range fails |
| CellCodec.Encoded | src/numbers_parser/cell.py:976-1115 | a merged or unsupported cell gives no buffer; any other buffer starts with version 5 and has its 12-byte header |
| CellCodec.BufferAsWritten | src/numbers_parser/cell.py:1036-1040 | `_to_buffer` as written: rich text writes its rich id as the value and again under flag 0x10 |
| CellCodec.ToBuffer | src/numbers_parser/cell.py:976-1115 | the imperative writer gives the corrected buffer `Buffer` |
| CellCodec.WriteIds | src/numbers_parser/cell.py:1055-1108 | the chain of `if self._x_id is not None:` blocks appends each carried id in order and sets its flag bit |
| CellCodec.SetBitsAt | src/numbers_parser/cell.py:1055-1108 | a flag bit is set after the id blocks exactly when it was set before or a carried id sets it |
| CellCodec.IdMapAt | src/numbers_parser/cell.py:1055-1108 | the ids the blocks write are exactly the carried ids they name, with their values |
| CellCodec.IdsWrittenPrefix | src/numbers_parser/cell.py:1055-1108 | the bytes written for the first ids are a prefix of the bytes written for all of them |
| CellCodec.SavedFlags | src/numbers_parser/cell.py:1055-1113 | in the flags word written, each id's bit is set exactly when the cell carries that id, and bits 0-3, 7, 8 and 11 are set only for the value's own bit |
| CellCodec.HeaderLayout | src/numbers_parser/cell.py:1050-1053 | a written buffer is the header (version 5, the cell type, the extras, the flags), then the value, then the ids |
| CellCodec.SavedHeader | src/numbers_parser/cell.py:1050-1113 | a saved buffer's type byte decodes back to the class saved and its extras bytes to the extras written |
| CellCodec.ValueWalk | src/numbers_parser/cell.py:835-846 | reading the value part of a saved buffer gives back the saved value's fields and stops at its end |
| CellCodec.IdWalk | src/numbers_parser/cell.py:847-893 | reading the ids of a saved buffer collects the ids the cell carries, with the offset just past their bytes |
| CellCodec.DecodeSaved | src/numbers_parser/cell.py:820-933 | a buffer laid out as `_to_buffer` lays it out decodes to the saved class, fields and extras, and the walk ends at its last byte |
| CellCodec.RoundTrip | src/numbers_parser/cell.py:976-1115 | saving a cell with the corrected writer and loading the buffer gives back its class, value, ids and extras, and the reader consumes exactly the bytes written |
| CellCodec.RichTextStyleMisread | src/numbers_parser/cell.py:1036-1059 | a rich-text cell with rich id 7 and cell style 3, written as the source writes it, loads back with cell style 7 |
| RowStorage.NextNonNegative | src/numbers_parser/model.py:2612-2617 | the search for the next positive offset finds the first non-negative offset after a column, and finds none exactly when every later offset is negative |
| RowStorage.Scaled | src/numbers_parser/model.py:2596-2598 | wide offsets are multiplied by 4 and narrow ones kept, one for one |
| RowStorage.RowBuffers | src/numbers_parser/model.py:2575-2621 | `get_storage_buffers_for_row`: an odd number of offset bytes is a ValueError from `array("h")`; otherwise one entry per column up to the smaller of the column count and the offset count, None exactly where the offset is negative |
| RowStorage.StorageBuffersForRow | src/numbers_parser/model.py:2596-2621 | the loop over the columns returns what `RowBuffers` states |
| RowStorage.CutCell | src/numbers_parser/model.py:2604-2619 | one pass of the loop: None for a negative offset, else the slice from the offset to the cell's end |
| RowStorage.CellEndOf | src/numbers_parser/model.py:2609-2618 | the last column ends at the end of the storage, any other at the next non-negative offset or at the end when there is none |
| RowStorage.CutPartitions | src/numbers_parser/model.py:2600-2621 | with ascending offsets inside the storage, the cut buffers laid end to end are exactly the storage from the first stored cell on: no byte lost and none repeated |
| RowStorage.CutStored | src/numbers_parser/model.py:2604-2619 | a column with an offset is cut from that offset up to the next stored cell's offset |
| RowStorage.RowInfoOf | src/numbers_parser/model.py:1128-1159 | `recalculate_row_info`: a row with a stored cell past the width of the table's first row is an IndexError; otherwise version 5, wide offsets, the row index relative to the tile, the number of stored cells, their buffers back to back, and `pack("<h")` of each stored cell's word offset with -1 for the others |
| RowStorage.RecalculateRowInfo | src/numbers_parser/model.py:1135-1159 | the loop over the row's cells returns what `RowInfoOf` states |
| RowStorage.JoinedAppend | src/numbers_parser/model.py:1144-1152 | the storage of two runs of cells is the storage of each, one after the other, and the counts add up |
| RowStorage.CellInJoined | src/numbers_parser/model.py:1146-1149 | each stored cell's buffer sits in the row's storage between its own start and the next cell's start |
| RowStorage.WideOffsetAt | src/numbers_parser/model.py:1148 | a written word offset scaled back to bytes is non-negative exactly for a stored cell, and is then where that cell starts |
| RowStorage.CellRoundTrip | src/numbers_parser/model.py:2604-2619 | with wide offsets, the slice read back for a column is that column's buffer |
| RowStorage.CellEndIsNextStart | src/numbers_parser/model.py:2609-2618 | a stored cell read back ends where the next stored cell starts, or at the end of the storage |
| RowStorage.RowRoundTrip | src/numbers_parser/model.py:1128-1159 | reading back a row written by `recalculate_row_info` gives every cell's buffer, when the row spans the table's width, its buffers are whole words and its storage fits the 16-bit word offsets |
| Tiles.Tiling | src/numbers_parser/model.py:1222-1265 | the tiles written for a table: `(rows >> 8) + 1` of them |
| Tiles.TileRows | src/numbers_parser/model.py:1222-1265 | the tile loop of `recalculate_table_data` produces `Tiling(rows)` |
| Tiles.RecalculateTiles | src/numbers_parser/model.py:1208-1265 | the row and column counts, the tiles and the wide-rows flag, which is set when the table is wider than 256 columns and otherwise left as it was; an IndexError exactly when there are no rows, from `data[0]` |
| Tiles.TilingPartitions | src/numbers_parser/model.py:1229-1236 | the tiles are numbered from 0, start at row 0, follow one another without gap or overlap, hold at most 256 rows, all full but the last, and the last ends at the last row |
| Tiles.RowInTile | src/numbers_parser/model.py:1229-1236 | row `r` is row `r % 256` of tile `r // 256` |
| Tiles.EmptyLastTile | src/numbers_parser/model.py:1223-1236 | the last tile holds no rows exactly when the row count is a multiple of 256 |
| BaseFormat.Digits | src/numbers_parser/cell.py:1866-1869 | the base digits of a number: none exactly for zero |
| BaseFormat.DigitsBelow | src/numbers_parser/cell.py:1866-1869 | every digit the loop produces lies below the base |
| BaseFormat.DigitsLeading | src/numbers_parser/cell.py:1866-1870 | the leading digit of a positive number is never zero |
| BaseFormat.ValueOfDigits | src/numbers_parser/cell.py:1866-1870 | the digits, read back most significant first, give the number |
| BaseFormat.DigitsLength | src/numbers_parser/cell.py:1866-1869 | a number has as many digits as the power of the base it lies below |
| BaseFormat.ReadDigits | src/numbers_parser/cell.py:1828 | digits spelled with `INT_TO_BASE_CHAR` and read by `int(s, base)` give the number back |
| BaseFormat.ReadZFill | src/numbers_parser/cell.py:1872-1875 | zero-filling the digits to a minimum width does not change the value they read as |
| BaseFormat.CeilLog2 | src/numbers_parser/cell.py:1838 | `ceil(log2(n))` as the least k with 2^k at least n |
| BaseFormat.Invert | src/numbers_parser/cell.py:1831-1833 | `_invert_bit_str` keeps the length and swaps every bit |
| BaseFormat.ReadInvert | src/numbers_parser/cell.py:1831-1833 | a bit string and its inversion read as numbers that add up to 2^length - 1 |
| BaseFormat.BitsFit | src/numbers_parser/cell.py:1838-1839 | the binary digits of |value| fit the width of at least 32 bits with a bit to spare |
| BaseFormat.InvertedPlusOne | src/numbers_parser/cell.py:1838-1841 | inverting the bits of n, padding with ones to the width and adding one gives 2^width - n |
| BaseFormat.TwosComplementMeaning | src/numbers_parser/cell.py:1836-1848 | `_twos_complement` of a negative value reads back, in its base, as 2^width - |value|, the value modulo 2^width; in base 2 it has exactly `width` digits and starts with a one |
| BaseFormat.RoundHalfEven | src/numbers_parser/cell.py:1855 | `round` gives an integer within one half of its argument |
| BaseFormat.FormatBaseAsWritten | src/numbers_parser/cell.py:1851-1876 | `_format_base` as written, with the zero test made before rounding |
| BaseFormat.BaseDigits | src/numbers_parser/cell.py:1866-1869 | the remainder loop, reversed, gives exactly the base digits of the value |
| BaseFormat.FormatBaseLoop | src/numbers_parser/cell.py:1851-1876 | `_format_base` run step by step returns what `FormatBaseAsWritten` states |
| BaseFormat.FormatBaseAgrees | src/numbers_parser/cell.py:1852-1855 | the written and corrected versions agree except on a non-zero value that rounds to zero |
| BaseFormat.FormatBaseEmptyForSmallValues | src/numbers_parser/cell.py:1852-1876 | 0.25 in base 10 with no minimum width is formatted as "" by the code as written, and as "0" by the corrected version |
| BaseFormat.FormatIntegerMeaning | src/numbers_parser/cell.py:1857-1876 | a non-zero integer's text is never empty; a negative value in base 2, 8 or 16 without a minus sign reads back as 2^width - |v|; a positive value gives at least `places` digits reading as v; any other negative value gives "-" and then at least `places` digits reading as |v| |
| BaseFormat.FormatBaseMeaning | src/numbers_parser/cell.py:1851-1876 | the corrected `_format_base` states the same of the rounded value |
| BaseFormat.FormatBaseHexExample | src/numbers_parser/cell.py:1851-1876 | 255 in base 16 is "FF" |
| BaseFormat.FormatBaseMinusExample | src/numbers_parser/cell.py:1851-1876 | -5 in base 10 with 3 places is "-005" |
| BaseFormat.FormatBaseZeroExample | src/numbers_parser/cell.py:1852-1853 | zero in base 2 with 4 places is "0000" |
| CellFormat.ExpandQuotes | src/numbers_parser/cell_storage.py:549-572 | the index loop of `expand_quotes` returns exactly `Expanded` of its input: delimiters dropped, a doubled quote kept once, a trailing lone quote ending the scan |
| CellFormat.ExpandedPlain | src/numbers_parser/cell_storage.py:568-570 | text without quotes is copied unchanged |
| CellFormat.ExpandedDoubled | src/numbers_parser/cell_storage.py:556-561 | doubling every quote of a text and expanding the result gives the text back |
| CellFormat.ExpandedDoubledThen | src/numbers_parser/cell_storage.py:556-570 | a text with doubled quotes followed by anything expands to the text followed by the expansion of the rest |
| CellFormat.ExpandedDelimited | src/numbers_parser/cell_storage.py:556-567 | a literal in quote delimiters comes back without them when it is non-empty and does not start with a quote; `''` alone expands to one quote |
| CellFormat.DecodeDateFormat | src/numbers_parser/cell_storage.py:495-540 | the loop of `decode_date_format` with its `in_string`/`in_field` flags returns exactly the scan `DateScan`, field rendering and its errors included |
| CellFormat.AlphaRun | src/numbers_parser/cell_storage.py:523-535 | the letters gathered into one field code: a run of letters ended by a non-letter or the end |
| CellFormat.DateScanUnquoted | src/numbers_parser/cell_storage.py:495-540 | for a format without quotes, each maximal run of letters is rendered as one field code and every other character is copied, in order |
| CellFormat.DateScanPending | src/numbers_parser/cell_storage.py:523-538 | a pending field code continues with the letters that follow it and is rendered when a non-letter or the end arrives |
| CellFormat.ThenAssoc | src/numbers_parser/cell_storage.py:517-538 | appending rendered pieces is associative, and the first error raised wins |
| CellFormat.DateScanExamples | src/numbers_parser/cell_storage.py:495-540 | "yyyy-MM" renders as the year field, "-", then the month field |
| CellFormat.DateScanQuotedExample | src/numbers_parser/cell_storage.py:506-522 | letters inside quotes are copied, not read as field codes: "'at' MM" gives "at " then the month |
| FormatOptions.LargestUnit | src/numbers_parser/cell_storage.py:787-798 | for a value of at least one second, the coarsest unit that fits in it (a week at most); below one second, milliseconds |
| FormatOptions.SmallestUnit | src/numbers_parser/cell_storage.py:800-809 | milliseconds for a fractional value; the format's own smallest unit for a whole number of weeks |
| FormatOptions.AutoUnits | src/numbers_parser/cell_storage.py:780-814 | `auto_units`: zero gives (day, day); otherwise the largest unit is chosen by magnitude and the smallest unit is never coarser than the largest; the smallest is milliseconds for a fractional value and the format's own smallest (raised to the largest) for a whole number of weeks |
| FormatOptions.AutoUnitsSmallest | src/numbers_parser/cell_storage.py:800-811 | for a whole number of seconds, the smallest unit is the coarsest unit below a week that divides the value, raised to the largest unit when that is coarser |
| FormatOptions.CoarsestExists | src/numbers_parser/cell_storage.py:802-809 | a whole number of seconds that is not a whole number of weeks always has such a dividing unit |
| FormatOptions.WholeWeeks | src/numbers_parser/cell_storage.py:802-809 | a whole number of weeks is a whole number of days, hours and minutes, so none of the earlier branches is taken |
| FormatOptions.AutoUnitsExamples | src/numbers_parser/cell_storage.py:780-814 | 90 s gives (second, minute), 7200 s (hour, hour), 1.5 s (millisecond, second), one week (week, week) |
| FormatOptions.UnitFormat | src/numbers_parser/cell_storage.py:768-777 | `unit_format`: the compact style gives "", the short style the abbreviation (the unit's first letter by default), any other style " unit" with an "s" unless the value is 1; an empty unit without an abbreviation raises IndexError |
| FormatOptions.KnownFields | src/numbers_parser/cell.py:2156-2158 | the loop over the words accepts exactly when every word is a key of `DATETIME_FIELD_MAP` |
| FormatOptions.NewFormatting | src/numbers_parser/cell.py:2142-2178 | `Formatting.__post_init__` succeeds exactly when a date-time format's words are all known fields, a currency code is known, and a base lies in 2..36 and uses a minus sign unless it is 2, 8 or 16; every failure is a TypeError; it keeps the fields given and defaults the decimal places to 2 for currency and to DECIMAL_PLACES_AUTO otherwise |
| FormatOptions.AcceptedDateFormatDecodes | src/numbers_parser/cell.py:2154-2158 | a date-time format without quotes that `Formatting` accepts never makes `decode_date_format` raise for an unknown field code |
| FormatOptions.RgbColor | src/numbers_parser/cell.py:353-365 | `rgb_color`: a tuple is accepted exactly when it holds three ints; anything that is not None, an RGB, a tuple or a list raises; every failure is a TypeError |
| FormatOptions.RgbColorsAll | src/numbers_parser/cell.py:363-364 | a list is accepted exactly when every element is, and each element becomes its own checked colour |
| FormatOptions.RgbColorIdempotent | src/numbers_parser/cell.py:353-365 | checking a checked colour again gives it back |
| FormatOptions.NewAlignment | src/numbers_parser/cell.py:177-191 | `Alignment.__new__` succeeds exactly when each name, lower-cased, is in its map (ints are kept); a failure is a TypeError |
| FormatOptions.AlignmentOf | src/numbers_parser/cell.py:368-377 | `alignment`: None gives ("auto", "top"), an `Alignment` passes through, a tuple is accepted exactly when it is a pair of ints or strings that `Alignment` accepts, anything else raises TypeError |
| FormatOptions.NamesReadBack | src/numbers_parser/cell.py:160-172 | each named justification, written as its map key, reads back as itself |
| FormatOptions.AlignmentIgnoresCase | src/numbers_parser/cell.py:179-189 | alignment names are matched without regard to case |
| Decimal128.BiasedExponent | src/numbers_parser/cell.py:1530 | the biased exponent is a 14-bit value |
| Decimal128.Magnitude | src/numbers_parser/cell.py:1531-1533 | the significand read from the bytes is below 2 × 256^14, 113 bits |
| Decimal128.Unpack | src/numbers_parser/cell.py:1529-1539 | the exponent is the biased exponent less 0x1820, the significand is the magnitude, negative only with the sign bit set and positive only without it |
| Decimal128.UnpackDecimal128 | src/numbers_parser/cell_storage.py:453-475 | the loop that accumulates the significand from byte 13 down to byte 0 computes `Unpack` |
| Decimal128.MantissaStep | src/numbers_parser/cell.py:1532-1533 | one turn of the loop takes the next byte below the ones already read |
| Decimal128.MantissaDone | src/numbers_parser/cell.py:1531-1533 | after byte 0 the accumulated value is the magnitude of the significand |
| Decimal128.Encode | src/numbers_parser/cell.py:1512-1526 | an encodable decimal is written as 16 bytes |
| Decimal128.EncodeMagnitude | src/numbers_parser/cell.py:1519-1523 | the encoding's significand bits read back as the significand's magnitude |
| Decimal128.EncodeExponent | src/numbers_parser/cell.py:1516-1517 | the encoding's exponent bits read back as the biased exponent |
| Decimal128.EncodeSign | src/numbers_parser/cell.py:1524-1525 | the sign bit is set exactly for a negative significand |
| Decimal128.UnpackEncode | src/numbers_parser/cell.py:1512-1539 | decoding the encoding of an encodable decimal gives it back |
| Bullets.Punctuated | src/numbers_parser/bullets.py:4-56 | a bullet opens with "(" exactly for the double-paren styles and closes with ")" for paren styles, "." for decimal styles |
| Bullets.NumericBullet | src/numbers_parser/bullets.py:23-25 | numeric styles write the decimal digits of index + 1 between prefix and suffix |
| Bullets.AlphaBullet | src/numbers_parser/bullets.py:32-37 | alphabetic styles write the character index + 65 (or + 97), so index 0 is "A" (or "a") |
| Bullets.RomanFirstIsLetter | src/numbers_parser/bullets.py:26-31 | a Roman conversion of index + 1 is non-empty and starts with a capital letter, never "(" |
| Bullets.Examples | tests/test_styles.py:19-34 | `formatted_number` gives "(1)", "III." and "n)" for the three sample styles |
| Roman.RomanNumeral | src/numbers_parser/roman.py:1-8 | `to_roman(0)` is "N"; a value below 1 or above 3999 (other than 0) is a ValueError |
| Roman.ToRoman | src/numbers_parser/roman.py:1-32 | the method returns what `RomanNumeral` specifies, and succeeds exactly for 0..3999 |
| Roman.GreedyLoop | src/numbers_parser/roman.py:26-32 | the nested loops over the map build exactly the greedy spelling of the value |
| Roman.GreedySpellsPicks | src/numbers_parser/roman.py:27-30 | the text written is the symbols of the picked map entries, in the order picked |
| Roman.PicksTotal | src/numbers_parser/roman.py:10-30 | the values of the symbols written add up to the number converted |
| Roman.PicksNonIncreasing | src/numbers_parser/roman.py:10-30 | symbols are written in non-increasing order of value |
| Roman.RomanNumeralMeaning | src/numbers_parser/roman.py:1-32 | for 1..3999 the numeral spells picks whose values sum to the input and never increase |
| Roman.RomanExamples | tests/test_roman.py:6-16 | 4 is "IV", 900 is "CM", 3999 is "MMMCMXCIX" |
| Borders.NewBorder | src/numbers_parser/cell.py:422-449 | `Border.__init__`: a width that is not a float or an unknown style name is a TypeError; otherwise it keeps the width and order given, black when no colour is given, solid when no style is given, a given style code as it is, and a style name looked up in lower case |
| Borders.Kept | src/numbers_parser/cell.py:484-534 | what a side setter keeps: the new border when the side has none, otherwise the border painted later, so the kept order is the larger of the two |
| Borders.KeptCommutes | src/numbers_parser/cell.py:484-534 | painting two borders of different orders onto a side gives the same result in either sequence |
| Borders.KeptIdempotent | src/numbers_parser/cell.py:484-534 | setting the same border twice is the same as setting it once |
| Borders.CellBorder.constructor | src/numbers_parser/cell.py:460-474 | a new `CellBorder` has no side painted and exactly the merged sides given |
| Borders.CellBorder.Get | src/numbers_parser/cell.py:476-527 | a side reads as its border exactly when it is painted and not inside a merge |
| Borders.CellBorder.Set | src/numbers_parser/cell.py:499-534 | the right, bottom and left setters (and the top setter as evidently intended) store what `Kept` keeps and change nothing else |
| Borders.CellBorder.SetTopAsWritten | src/numbers_parser/cell.py:484-489 | the top setter as written reads the `top` getter, so it raises AttributeError exactly when the top is already painted and lies inside a merge, changing nothing; otherwise it stores what `Kept` keeps |
| Borders.TopSettersAgree | src/numbers_parser/cell.py:484-489 | on a top side outside a merge, the setter as written and the corrected one leave the same borders |
| Borders.TopSetterAsWrittenRaises | src/numbers_parser/cell.py:484-489 | on a cell inside a merge whose top is already painted, painting again raises with the setter as written and keeps the later border with the corrected one |
| Strokes.NewRun | src/numbers_parser/model.py:2404-2459 | `create_stroke`: a run with the given origin and length that carries the border and its paint order |
| Strokes.Position | src/numbers_parser/model.py:2477-2492 | top and bottom strokes lie on the row line and run along the columns; right and left strokes lie on the column line and run along the rows |
| Strokes.EditRun | src/numbers_parser/model.py:2501-2523 | one pass of the edit loop: a run the new stroke covers becomes the new stroke; one it overlaps at the start, at the end or in the middle keeps its order and style and is cut back, the middle case splitting off a second half after the first; any other run is unchanged |
| Strokes.EditRunCells | src/numbers_parser/model.py:2508-2523 | a partly overlapped run gives up exactly the cells of the new stroke and keeps all its others |
| Strokes.SplitTailUntouched | src/numbers_parser/model.py:2515-2523 | the half split off and appended during the loop is left as it is when the loop reaches it |
| Strokes.NegativeLengthResplits | src/numbers_parser/model.py:2515-2523 | with a negative length, the half split off is split off again, unchanged, when the loop reaches it, so the loop that visits what it appends never ends |
| Strokes.NegativeLengthExample | src/numbers_parser/model.py:2515-2523 | painting at 5 with length -2 over the run 0..10 keeps 0..5 and appends 3..10, whose own edit appends 3..10 again |
| Strokes.Heads | src/numbers_parser/model.py:2500-2523 | each existing run after the loop is what its pass made of it, in place |
| Strokes.EditRuns | src/numbers_parser/model.py:2499-2523 | the edit loop leaves the edited runs followed by the split-off halves in order, and reports a patch exactly when some run was covered |
| Strokes.EditStep | src/numbers_parser/model.py:2500-2523 | one pass of the loop keeps the account of edited runs, untouched runs and appended halves |
| Strokes.HeadsStep | src/numbers_parser/model.py:2500-2517 | editing run i in place extends the edited prefix by one |
| Strokes.TailsStep | src/numbers_parser/model.py:2518-2523 | the halves split off by one more pass are appended after the earlier ones |
| Strokes.CoveredStep | src/numbers_parser/model.py:2504-2507 | the patch flag after one more pass is set exactly when it was set before or this pass covered its run |
| Strokes.InsertByOrigin | src/numbers_parser/model.py:2526 | inserting a run into a sorted list adds one run |
| Strokes.SortByOrigin | src/numbers_parser/model.py:2526 | the sort keeps the number of runs |
| Strokes.InsertAdds | src/numbers_parser/model.py:2526 | inserting adds exactly that run and drops none |
| Strokes.InsertBounded | src/numbers_parser/model.py:2526 | inserting a run that starts at or before a bound into runs that do keeps them all at or before it |
| Strokes.InsertSorted | src/numbers_parser/model.py:2526 | inserting keeps the runs sorted by origin |
| Strokes.SortedRuns | src/numbers_parser/model.py:2526 | `runs.sort(key=origin)` gives the same runs, sorted by origin |
| Strokes.FreshInEdited | src/numbers_parser/model.py:2504-2526 | after editing a layer the new stroke is always among its runs: a covered run became it, or it was appended |
| Strokes.DisjointAdds | src/numbers_parser/model.py:2500-2525 | a stroke that meets no existing run leaves them all and is appended at the end |
| Strokes.NoTails | src/numbers_parser/model.py:2515-2523 | with no middle overlap nothing is split off |
| Strokes.EditedLength | src/numbers_parser/model.py:2500-2525 | an edited layer holds one run per existing run, one per split, and the new stroke once unless a covered run already became it |
| Strokes.LastMatch | src/numbers_parser/model.py:2494-2497 | the search finds the last layer on the line, or none exactly when no layer lies on it |
| Strokes.FindLayer | src/numbers_parser/model.py:2494-2497 | the search loop finds what `LastMatch` states |
| Strokes.PaintedLayers | src/numbers_parser/model.py:2494-2536 | painting adds a layer holding only the new stroke when none lies on the line; otherwise only the last layer on the line changes, to a sorted rearrangement of its edited runs among which is the new stroke |
| Strokes.PaintLayer | src/numbers_parser/model.py:2494-2536 | the editing, appending and sorting of `add_stroke` on the layers of one side computes `Painted` |
| Strokes.Sidecar.constructor | src/numbers_parser/model.py:2471 | a new sidecar has paint order 0 and no layers |
| Strokes.Sidecar.AddStroke | src/numbers_parser/model.py:2461-2536 | `add_stroke`: the paint order goes up by one and stamps the border, the sidecar takes the table size, the layers of the other sides are unchanged and those of the side are painted |
| FontNames.CreateFontNameMap | src/numbers_parser/model.py:80-85 | the loop over the font map computes `Inverted` |
| FontNames.InvertedFirst | src/numbers_parser/model.py:80-85 | every family is a key of the inverted map and maps to the first name, in the map's order, of that family |
| FontNames.InvertedKeys | src/numbers_parser/model.py:80-85 | only families of the map are keys of the inverted map |
| Merges.AnchorKeys | src/numbers_parser/model.py:118-119 | the anchors picked out of a list of keys: every key that holds an anchor and nothing else, without repeats when the keys have none |
| Merges.Touched | src/numbers_parser/model.py:92-93 | a read of the defaultdict stores a key read for the first time at the end of its key order and keeps the order before it |
| Merges.TouchedAllValid | src/numbers_parser/model.py:92-116 | reads extend the key order, never list a key twice, and list every key read and every key stored |
| Merges.TouchedAllFresh | src/numbers_parser/model.py:92-116 | reading new, distinct keys appends them in the order they are read |
| Merges.TouchedAllKnown | src/numbers_parser/model.py:92-116 | reading keys already read leaves the order as it is |
| Merges.MergeCells.constructor | src/numbers_parser/model.py:92-93 | a new register holds nothing and has read nothing |
| Merges.MergeCells.AddReference | src/numbers_parser/model.py:95-96 | `add_reference` stores a reference, replacing whatever the coordinate held, and adds the coordinate to the key order if it is new |
| Merges.MergeCells.AddAnchor | src/numbers_parser/model.py:98-99 | `add_anchor` stores an anchor with its size, replacing whatever the coordinate held |
| Merges.MergeCells.Get | src/numbers_parser/model.py:109-110 | `get` answers what the coordinate holds (None for the default `False`), changes no entry, and records a first read in the key order |
| Merges.MergeCells.ReadAll | src/numbers_parser/model.py:109-110 | reading coordinates in turn changes no entry and records each first read in order |
| Merges.MergeCells.IsMergeReference | src/numbers_parser/model.py:101-103 | true exactly when the coordinate holds a reference |
| Merges.MergeCells.IsMergeAnchor | src/numbers_parser/model.py:105-107 | true exactly when the coordinate holds an anchor, and then it is not a reference |
| Merges.MergeCells.MergeCellsList | src/numbers_parser/model.py:118-119 | `merge_cells()` lists exactly the anchored coordinates, each once, in the dictionary's key order |
| Merges.GridKeysSorted | src/numbers_parser/document.py:487-500 | the coordinates a table load reads are exactly those of the grid, row by row, each once |
| Merges.ReadGrid | src/numbers_parser/document.py:487-500 | reading the grid, and the first cells of one more row, changes no entry and records the first reads in that order |
| Merges.FreshGridReads | src/numbers_parser/document.py:487-500 | a grid read on a register that has read nothing lists its coordinates row by row |
| Merges.LoadedAnchorsRowMajor | src/numbers_parser/model.py:118-119 | after a table load, the anchors come out in row-major order |
| Merges.FirstReadOrderExample | src/numbers_parser/model.py:118-119 | merges added C3 first and A1 second, on coordinates read row by row beforehand, are listed A1 first |
| Merges.AddRect | src/numbers_parser/model.py:868-877 | adding one merge makes every cell of its rectangle a reference to it, then its origin the anchor with its size, and leaves every other cell as it was |
| Merges.AddRects | src/numbers_parser/model.py:856-877 | adding merges in turn leaves the register as `AfterRects` states |
| Merges.AnchorSurvives | src/numbers_parser/model.py:856-902 | a merge keeps its anchor unless a merge added after it covers its origin |
| Merges.UncoveredKept | src/numbers_parser/model.py:856-902 | a coordinate no merge covers keeps what it had |
| Merges.UnpackPack | src/numbers_parser/model.py:1120-1121 | `hi << 16 | lo` unpacks with `>> 16` and `& 0xFFFF` to (hi, lo) when lo fits in 16 bits |
| Merges.PackOverflow | src/numbers_parser/model.py:1120 | a row of 65536 or more spills into the column: row 65536 of column 0 reads back as row 0 of column 1 |
| Merges.RectOf | src/numbers_parser/model.py:884-894 | a stored range unpacks to the merge whose origin is (origin & 0xFFFF, origin >> 16) and whose size is (size & 0xFFFF, size >> 16) |
| Merges.CalculateMergeCellRanges | src/numbers_parser/model.py:848-902 | `calculate_merge_cell_ranges` adds the merges of the merge owner's range dependencies and then those of the merge-region map, leaving the register as `AfterRects` of them all |
| Merges.RangeOf | src/numbers_parser/model.py:1117-1122 | the stored range for an anchor, a ValueError exactly when a coordinate or a size is negative |
| Merges.RangeRoundTrip | src/numbers_parser/model.py:1117-1122 | a range written by `recalculate_merged_cells` reads back through `calculate_merge_cell_ranges` as the anchor it was written for, when the rows fit in 16 bits |
| Merges.RecalculateMergedCells | src/numbers_parser/model.py:1108-1126 | one stored range per anchor of `merge_cells()`, in its order, each packed as `col << 16 | row` and `cols << 16 | rows`; an error exactly when some anchor cannot be packed |
| Merges.SetMerge | src/numbers_parser/cell.py:948-974 | `_set_merge`: an anchor is merged with its size; a reference gets the merge's rectangle, its A1 range and the sides that lie inside the merge; any other cell has size (1, 1) |
| Merges.MergedSidesAreInterior | src/numbers_parser/cell.py:961-974 | a side of a covered cell is marked merged exactly when the cell across it lies in the same merge |
| TableGrid.EmptyCells | src/numbers_parser/document.py:1055-1061 | the new cells of a row are empty cells, each at its own column from the first on |
| TableGrid.Renumbered | src/numbers_parser/document.py:1064-1067 | after the renumbering loop every cell of the row knows its position and nothing else about it changes |
| TableGrid.RenumberedInPlace | src/numbers_parser/document.py:1064-1067 | renumbering a row whose cells already know their position changes nothing |
| TableGrid.Renumber | src/numbers_parser/document.py:1123-1124 | the loop `for col in range(len(row)): row[col].col = col` computes `Renumbered` |
| TableGrid.Inserted | src/numbers_parser/document.py:1062 | `xs[start:start] = ys`: the items before `start`, then `ys`, then the rest of `xs`, shifted by `len(ys)` |
| TableGrid.DeletedLength | src/numbers_parser/document.py:1164-1167 | a delete of `count` items removes exactly `count` exactly when the slice lies inside the list; `del xs[-0:]` empties the list |
| TableGrid.Deleted | src/numbers_parser/document.py:1164-1167 | `del xs[start:start+count]` (or `del xs[-count:]`): the items before the slice stay, the items after it move up by `count` |
| TableGrid.RangesOf | src/numbers_parser/document.py:702-707 | the range of each anchor, in order, and an IndexError exactly when `xl_range` fails on one of them |
| TableGrid.Insert | src/numbers_parser/document.py:706-708 | adding to a sorted list of distinct strings keeps it sorted and adds exactly that string |
| TableGrid.SortedSet | src/numbers_parser/document.py:708 | `sorted(set(xs))` is sorted without repeats and holds exactly the strings of `xs` |
| TableGrid.Anchors | src/numbers_parser/document.py:703-705 | exactly the cells of the grid that are merge anchors, with their sizes |
| TableGrid.CoverRow | src/numbers_parser/document.py:1250-1252 | one row of the covering loops: each cell of the row from the first column on becomes a merged cell and a reference, or an IndexError when the row or a column lies outside the grid |
| TableGrid.NameableSetMerge | src/numbers_parser/cell.py:948-974 | `_set_merge` cannot fail on what a register of nameable ranges holds |
| TableGrid.NameableAfterCover | src/numbers_parser/document.py:1248-1252 | adding a merge with a nonnegative origin keeps every range in the register nameable |
| TableGrid.WithMerges | src/numbers_parser/document.py:1254-1256 | each cell of a row takes what the register holds for its position and keeps everything else |
| TableGrid.SetRowMerges | src/numbers_parser/document.py:1255-1256 | the inner closing loop gives every cell its register entry, or stops at a cell on which `_set_merge` raises |
| TableGrid.ReplaceRow | src/numbers_parser/document.py:1251 | replacing one row by a row of the same width whose cells know their position keeps the grid rectangular and positioned |
| TableGrid.NameableSetMerges | src/numbers_parser/document.py:1254-1256 | on a register of nameable ranges no cell of a row makes `_set_merge` raise |
| TableGrid.ParseRanges | src/numbers_parser/document.py:1237-1239 | the ranges of a list in order, an error exactly when one of them does not parse |
| TableGrid.CoverStep | src/numbers_parser/document.py:1251-1252 | one turn of the covering loop: the cell becomes a merged cell and a reference, and the loop's account of the cells passed stays true |
| TableGrid.SweepOrigin | src/numbers_parser/document.py:1249-1252 | the anchor cell is passed over without change |
| TableGrid.SweepRowEnd | src/numbers_parser/document.py:1249-1250 | the end of one row of the covering loops is the start of the next |
| TableGrid.SweepDone | src/numbers_parser/document.py:1249-1252 | after the covering loops every cell of the block lies in the grid, is a reference and is hidden, and every other cell is as it was |
| TableGrid.SweepPositioned | src/numbers_parser/document.py:1251 | covering keeps every cell at its position |
| TableGrid.NewRows | src/numbers_parser/document.py:1054-1061 | `count` rows of `width` empty cells, numbered from `start_row` |
| TableGrid.RenumberRows | src/numbers_parser/document.py:1064-1067 | rows `from` up to `to` are renumbered and the other rows are left as they were |
| TableGrid.InsertCells | src/numbers_parser/document.py:1117-1124 | the loop of `add_column` inserts the empty cells in every row and renumbers the row |
| TableGrid.DeleteCells | src/numbers_parser/document.py:1208-1214 | the loop of `delete_column` deletes the slice from every row and renumbers the row |
| TableGrid.AddRowLayout | src/numbers_parser/document.py:1045-1067 | after `add_row` the rows before `start_row` are unchanged, the new rows are empty, and the old rows from `start_row` on move down by `count` and know their new position |
| TableGrid.AddColumnLayout | src/numbers_parser/document.py:1104-1124 | after `add_column` every row keeps its cells before `start_col`, has `count` empty cells there, and moves the rest right by `count`, each knowing its position |
| TableGrid.AddColumnRow | src/numbers_parser/document.py:1117-1124 | the same for one row |
| TableGrid.DeleteRowLayout | src/numbers_parser/document.py:1160-1176 | after `delete_row` the kept rows are rectangular and each knows its new position: the rows the renumbering loop skips already do |
| TableGrid.DeleteColumnLayout | src/numbers_parser/document.py:1204-1214 | after `delete_column` every row has the same length, the length as written, and every cell knows its position |
| TableGrid.ParseRange | src/numbers_parser/document.py:1241-1243 | `cell_range.split(":")` into exactly two parts or a ValueError, each part read with `xl_cell_to_rowcol` |
| TableGrid.Table.constructor | src/numbers_parser/document.py:479-503 | a loaded table of empty cells: `num_rows` rows of `num_cols` empty cells, no merges, and the register read at every coordinate in row-major order |
| TableGrid.Table.CellAt | src/numbers_parser/document.py:756-767 | `cell()`: the cell at the position, an IndexError for a wrong number of coordinates, a name that does not parse, or a position outside the table |
| TableGrid.Table.AddRow | src/numbers_parser/document.py:1010-1067 | `add_row`: an IndexError exactly when `start_row` is out of range; otherwise the grid grows by `count` rows laid out as `AddRowLayout` states |
| TableGrid.Table.AddColumn | src/numbers_parser/document.py:1074-1124 | `add_column`: an IndexError exactly when `start_col` is out of range; otherwise every row gets `count` empty cells at `start_col`, the cells before kept and the cells after moved right |
| TableGrid.Table.DeleteRow | src/numbers_parser/document.py:1132-1176 | `delete_row`: an IndexError exactly when `start_row` is out of range; otherwise the slice is deleted, the rest renumbered, and the table stays consistent exactly when the slice lay inside it |
| TableGrid.Table.DeleteColumn | src/numbers_parser/document.py:1178-1214 | `delete_column`: an IndexError exactly when `start_col` is out of range; otherwise every row loses the slice, and the table stays consistent exactly when the slice lay inside it |
| TableGrid.Table.SetNumHeaderRows | src/numbers_parser/document.py:561-573 | a ValueError exactly when the count is negative, more than the rows or more than 5; otherwise the count is set and nothing else changes |
| TableGrid.Table.SetNumHeaderCols | src/numbers_parser/document.py:595-607 | a ValueError exactly when the count is negative, more than the columns or more than 5; otherwise the count is set and nothing else changes |
| TableGrid.Table.ValidateCellCoords | src/numbers_parser/document.py:909-932 | the coordinates given, or an IndexError; a position below 1000000 rows and 1000 columns grows the table to include it, keeping the old cells and adding empty ones |
| TableGrid.Table.MergeRanges | src/numbers_parser/document.py:686-708 | `merge_ranges`: sorted, without repeats, exactly the ranges of the anchored cells, or an IndexError exactly when one cannot be named |
| TableGrid.Table.CoverBlock | src/numbers_parser/document.py:1249-1252 | the covering loops: every cell of the block becomes a reference and is hidden, every other cell and entry is kept, and an IndexError exactly when the block leaves the grid |
| TableGrid.Table.ApplyMerges | src/numbers_parser/document.py:1254-1256 | the closing loop gives every cell its register entry, reading the register row by row; an IndexError exactly when `_set_merge` fails on some cell, never on a nameable register |
| TableGrid.MergeRows | src/numbers_parser/document.py:1254-1256 | row by row, every cell takes its register entry; the pass stops at the first cell `_set_merge` rejects, it fails exactly when some cell is rejected, and never on a nameable register |
| TableGrid.Table.MergeRectAsWritten | src/numbers_parser/document.py:1247-1256 | as written: the anchor, then references only from the row and the column after the anchor's, so the first row and column of the merge are neither hidden nor referenced |
| TableGrid.Table.MergeRect | src/numbers_parser/document.py:1247-1256 | as evidently intended: the anchor, and every other cell of the range hidden and referenced, so the register is what reading the merge back gives |
| TableGrid.Table.MergeCellsAsWritten | src/numbers_parser/document.py:1240-1256 | `merge_cells` on A1 text as written: a parse error leaves everything unchanged; otherwise the register is as `MergeRectAsWritten` states |
| TableGrid.Table.MergeCells | src/numbers_parser/document.py:1240-1256 | `merge_cells` on A1 text as evidently intended: a parse error leaves everything unchanged; on success the register is the old one with the merge added |
| TableGrid.Table.MergeCellsList | src/numbers_parser/document.py:1236-1239 | `merge_cells` with a list: each range in turn; on success the register is what adding the merges in order gives |
| TableGrid.FirstRowMergeExample | src/numbers_parser/document.py:1249-1252 | `merge_cells("B2:C2")`: as written C2 is not referenced, as intended it is |
| DataLists.IndexEntriesAsWritten | src/numbers_parser/model.py:138-152 | the indexing loop of `add_table` as written computes `ScanAsWritten`: an entry is indexed only when its key exceeds every key before it |
| DataLists.IndexEntries | src/numbers_parser/model.py:138-152 | the corrected indexing loop computes `ScanEntries`: every entry is indexed and the largest key is tracked |
| DataLists.ScanEntriesSound | src/numbers_parser/model.py:138-152 | the corrected index points every key at an entry with that key, indexes every entry's key and value, and the largest key bounds every key |
| DataLists.ScanEntriesAgrees | src/numbers_parser/model.py:145-151 | with no key repeated, every value's key also leads back to an entry holding that value |
| DataLists.DistinctFront | src/numbers_parser/model.py:145-151 | the entries before the last repeat no key and none has the last one's key |
| DataLists.AgreesStep | src/numbers_parser/model.py:145-151 | indexing one more entry whose key is new keeps values and keys agreeing |
| DataLists.AgreesSnoc | src/numbers_parser/model.py:148-151 | the same, for an explicit index update |
| DataLists.ScanAsWrittenSound | src/numbers_parser/model.py:145-151 | the loop as written indexes soundly and agrees with the values, because it never indexes a key twice |
| DataLists.AsWrittenAgreesOnIncreasingKeys | src/numbers_parser/model.py:145-152 | when the keys strictly increase from 1, as `lookup_key` hands them out, both loops build the same index and `next_key` is one above the last key |
| DataLists.MissedKeyExample | src/numbers_parser/model.py:145-151 | entries with keys 2 then 1: the loop as written never indexes key 1, the corrected loop indexes it at position 1 |
| DataLists.Built | src/numbers_parser/model.py:132-152 | the cached state of a table keeps its data list and its identifier |
| DataLists.BuiltWellIndexed | src/numbers_parser/model.py:138-152 | a freshly cached table is consistent, indexes every entry, and its `next_key` is at least 1 and above every key in use |
| DataLists.ValueOf | src/numbers_parser/model.py:158-161 | `lookup_value`: the entry with the key exactly when the key is indexed, else KeyError |
| DataLists.KeyOf | src/numbers_parser/model.py:178-203 | `lookup_key`: a known value gives its key and keeps `next_key`; a new value gets `next_key`, which goes up by one; afterwards the value is indexed under the key returned |
| DataLists.KeyOfKeepsIndex | src/numbers_parser/model.py:178-203 | handing out a key keeps the table consistent |
| DataLists.KeyOfRoundTrip | src/numbers_parser/model.py:178-203 | `lookup_value(lookup_key(v))` is an entry holding v; a known value only gains one reference, a new value gets a fresh key and a new entry with one reference at the end of the list, and `nextListID` goes up by one |
| DataLists.KeyOfLeavesOthers | src/numbers_parser/model.py:178-203 | handing out a key leaves the entry of every other key as it was |
| DataLists.Cleared | src/numbers_parser/model.py:168-176 | `init`: no entries, nothing indexed, and both `next_key` and `nextListID` back at 1 |
| DataLists.ClearedRestarts | src/numbers_parser/model.py:168-203 | after `init` the first value looked up gets key 1 and is the only entry |
| DataLists.UpdateWellIndexed | src/numbers_parser/model.py:139-152 | caching a consistent table keeps every cached table consistent |
| DataLists.DataLists.constructor | src/numbers_parser/model.py:125-129 | a new `DataLists` has cached no table |
| DataLists.DataLists.AddTable | src/numbers_parser/model.py:131-152 | `add_table`: a table already cached is left as it is; otherwise its list is indexed and cached, or KeyError when the store does not hold it |
| DataLists.DataLists.Id | src/numbers_parser/model.py:154-156 | `id`: the identifier of the table's data list, caching the table first |
| DataLists.DataLists.LookupValue | src/numbers_parser/model.py:158-161 | `lookup_value` on the cached table, KeyError for an unknown table or key |
| DataLists.DataLists.Init | src/numbers_parser/model.py:168-176 | `init` clears the table's cached list and restarts its counters |
| DataLists.DataLists.LookupKey | src/numbers_parser/model.py:178-203 | `lookup_key` on the cached table, as `KeyOf` states |
| FormulaOwners.MaxInternalId | src/numbers_parser/model.py:1617 | `max` of the internal ids: an id of the map at least as large as every other, and a ValueError exactly when the map is empty |
| FormulaOwners.AddedIdsDistinct | src/numbers_parser/model.py:1617-1719 | the two ids added, one and two above the largest, keep the internal ids of the owner map distinct |
| FormulaOwners.TableRangesAsWritten | src/numbers_parser/model.py:1626-1637 | as written, the bottom-right row of both the total and the body range is the column count minus one |
| FormulaOwners.TableRangesCover | src/numbers_parser/model.py:1626-1637 | as evidently intended, the total range holds exactly the table's cells and the body range exactly those outside the header rows and columns |
| FormulaOwners.TallTableExample | src/numbers_parser/model.py:1626-1631 | for 10 rows and 3 columns the total range as written leaves out row 5, which the corrected range holds |
| FormulaOwners.DependencyTracker.constructor | src/numbers_parser/model.py:1615-1616 | a tracker over an owner map, with no dependency archives |
| FormulaOwners.DependencyTracker.AddFormulaOwner | src/numbers_parser/model.py:1602-1719 | `add_formula_owner`: a ValueError with nothing changed exactly when the owner map is empty; otherwise a table-model owner and a haunted owner are appended with ids one and two above the largest, each with its dependencies archive and reference, and the haunted owner's UUID is returned |
| A1Notation.LettersValueOfLetters | src/numbers_parser/xref_utils.py:133-153 | reading back the letters written for a one-based column gives that column (bijective base 26, no zero digit) |
| A1Notation.LettersOfLettersValue | src/numbers_parser/xref_utils.py:31-41 | every run of capital letters is the name of exactly the column it reads as |
| A1Notation.LettersLength | src/numbers_parser/xref_utils.py:5 | names of at most n letters are exactly the columns up to 26 + … + 26^n (three letters reach "ZZZ") |
| A1Notation.ColumnName | src/numbers_parser/xref_utils.py:129-131 | `xl_col_to_name` is an IndexError exactly for a negative column |
| A1Notation.ColToName | src/numbers_parser/xref_utils.py:112-153 | the loop that takes one letter off the right at a time builds the bijective base-26 name, after "$" when absolute |
| A1Notation.ColumnNameExamples | tests/test_coverage.py:40-43 | columns 0, 25, 26 and absolute 27 are "A", "Z", "AA" and "$AB" |
| A1Notation.RowColToCell | src/numbers_parser/xref_utils.py:96-102 | `xl_rowcol_to_cell` is an IndexError exactly when the row or the column is negative |
| A1Notation.Range | src/numbers_parser/xref_utils.py:46-72 | `xl_range` is one cell name when both corners are the same cell, otherwise "first:last"; negative corners raise IndexError |
| A1Notation.CellNamesDistinct | src/numbers_parser/xref_utils.py:70-71 | two plain cell names are equal exactly when they name the same row and column |
| A1Notation.MatchA1 | src/numbers_parser/xref_utils.py:5 | a match of the A1 pattern has one to three capital letters and at least one digit |
| A1Notation.CellToRowColSpec | src/numbers_parser/xref_utils.py:23-29 | the empty string gives (0, 0); a string the pattern does not match is an IndexError |
| A1Notation.CellToRowCol | src/numbers_parser/xref_utils.py:8-43 | the accumulating loop over the reversed letters computes the zero-based row and column `CellToRowColSpec` gives |
| A1Notation.CellToRowColInvertsRowColToCell | src/numbers_parser/xref_utils.py:8-109 | `xl_cell_to_rowcol(xl_rowcol_to_cell(r, c, ra, ca)) == (r, c)` for r, c ≥ 0 and at most three column letters, with or without "$" |
| A1Notation.NameReadBack | src/numbers_parser/xref_utils.py:26-43 | a string laid out as "$"? letters "$"? digits reads back as the row and column those letters and digits stand for |
| NameScopes.ExactCount | src/numbers_parser/xrefs.py:252-254 | `_exact_count` never exceeds the size of the pool |
| NameScopes.ExactCountIsMultiplicity | src/numbers_parser/xrefs.py:252-254 | `_exact_count` is the number of times the value, with its type, occurs in the pool |
| NameScopes.ExactCountSeparatesTypes | src/numbers_parser/xrefs.py:252-254 | a header 1 beside a header True is counted once by `_exact_count` but twice by `list.count` |
| NameScopes.ScopeAt | src/numbers_parser/xrefs.py:284-305 | a row or column has a scope name exactly when the axis has header names, it lies after the headers, its name is not None and the name occurs once after the headers; the scope name is the name |
| NameScopes.ExactCountPresent | src/numbers_parser/xrefs.py:252-254 | an element of the pool is counted at least once |
| NameScopes.CalculateNameScopes | src/numbers_parser/xrefs.py:264-311 | `_calculate_name_scopes` returns the scope name of every row or column and the list of names it adds to the counts |
| NameScopes.CountedOnceIfUnique | src/numbers_parser/xrefs.py:289-309 | an axis adds a name to the document and sheet counts once when it is unique after the headers, and not at all otherwise |
| NameScopes.CountedPrefix | src/numbers_parser/xrefs.py:292-305 | the same for the first `n` rows or columns, counted as often as the name occurs among them |
| NameScopes.SeenCandidates | src/numbers_parser/xrefs.py:291 | the occurrences counted so far are those of the names after the headers |
| NameScopes.CountedLast | src/numbers_parser/xrefs.py:292-305 | one more row or column adds its name exactly when the name is unique after the headers |
| NameScopes.Unique | src/numbers_parser/xrefs.py:580-586 | the names kept after counting are exactly those counted once |
| NameScopes.ScopeType | src/numbers_parser/xrefs.py:333-348 | a name is document-scoped exactly when it is counted once in the document, sheet-scoped exactly when it is not but is counted once in its sheet, table-scoped exactly when neither holds and the table's name is unique, and unscoped otherwise |
| NameScopes.SheetCountsWithin | src/numbers_parser/xrefs.py:307-309 | a sheet never counts a name more often than the document does |
| NameScopes.SharedNameNotDocumentScoped | src/numbers_parser/xrefs.py:307-348 | a name scoped in two tables is never document-scoped |
| NameScopes.DocumentCountsTwice | src/numbers_parser/xrefs.py:307-309 | a name two tables add is counted at least twice in the document |
| NameScopes.DocumentCountsPositive | src/numbers_parser/xrefs.py:307-309 | a name a table adds is counted in the document |
| NameScopes.DocumentUniqueIsSheetUnique | src/numbers_parser/xrefs.py:307-309 | a name counted once in the document is counted once in the sheet whose table adds it |
| NameScopes.SheetCountsPositive | src/numbers_parser/xrefs.py:309 | a name a table of the sheet adds is counted in the sheet |
| NameScopes.UnnamedScopes | src/numbers_parser/xrefs.py:284-287 | an axis without header names has no scope anywhere |
| NameScopes.ScopesUpToAt | src/numbers_parser/xrefs.py:292-305 | the k-th scope name the loop leaves is that of row or column k |
| NameScopes.Typed | src/numbers_parser/xrefs.py:330-348 | `_calculate_scope_types` gives every row or column of the axis an entry |
| NameScopes.TypedScopes | src/numbers_parser/xrefs.py:264-348 | a row or column has a scope exactly when its name is unique along its axis, and then the scope holds its name and the scope type `ScopeType` gives |
| NameScopes.SheetCountMap | src/numbers_parser/xrefs.py:564-565 | there are counts for exactly the sheets of the document |
| NameScopes.UniqueSheets | src/numbers_parser/xrefs.py:582-586 | the unique names are kept for exactly the sheets counted |
| NameScopes.ScopedNameRefCache.constructor | src/numbers_parser/xrefs.py:242-250 | a new cache holds no names and no scopes |
| NameScopes.ScopedNameRefCache.CalculateNamedRanges | src/numbers_parser/xrefs.py:551-600 | `calculate_named_ranges`: the names counted once in the document and in each sheet, and the scope of every row and column of every table |
| NameScopes.CountNames | src/numbers_parser/xrefs.py:558-577 | the first pass counts every table's names in the document and in its sheet and keeps each axis's scope names |
| NameScopes.TypeScopes | src/numbers_parser/xrefs.py:588-600 | the second pass gives every scope name of every table its scope type |
| NameScopes.ScopeMapLatest | src/numbers_parser/xrefs.py:566-577 | the scope names kept for a table are those of its last visit |
| NameScopes.RangeMapAt | src/numbers_parser/xrefs.py:588-600 | with distinct table ids, every table's typed scopes are found under its id |
| NameScopes.RangeMapKeys | src/numbers_parser/xrefs.py:588-600 | only table ids are keys of the scope maps |
| NameScopes.CountsStep | src/numbers_parser/xrefs.py:566-577 | one more table adds its names to the document count and to its sheet's count, and its scope names to the maps |
| NameScopes.SheetCountMapStep | src/numbers_parser/xrefs.py:309 | one more table adds its names only to its own sheet's count |
| NameScopes.SheetCountsLast | src/numbers_parser/xrefs.py:309 | the same, sheet by sheet |
| NodeRefs.RangeEnd | src/numbers_parser/model.py:2559-2563 | an entry's end is its `range_end` when given, else its beginning |
| NodeRefs.Resolve | src/numbers_parser/model.py:933-945 | an absolute bound is its absolute entry; a relative one is the formula's cell plus its relative entry; with no relative entry it is the sentinel when the absolute entry holds it and IndexError otherwise |
| NodeRefs.ResolveShifts | src/numbers_parser/model.py:933-945 | a relative bound moves with the cell holding the formula and an absolute one does not |
| NodeRefs.Bounded | src/numbers_parser/model.py:986-991 | a bound is unbounded exactly when it equals the sentinel |
| NodeRefs.NodeToRef | src/numbers_parser/model.py:932-1027 | the range points from the formula's table to the cross-referenced table when it is found, else to the same table; a node without a colon tract never fails; a colon-tract node succeeds exactly when its four bounds all resolve, and then each bound is its sentinel-aware resolution (the row sentinel 0x7FFFFFFF and the column sentinel 0x7FFF read as unbounded), with the sticky bits as its absolute flags; the only failure is IndexError |
| NodeRefs.WholeColumnsUnbounded | src/numbers_parser/model.py:954-997 | a whole-column range, its rows holding the row sentinel and no relative entry, has no row bounds and its columns resolve relative to the cell |
| NodeRefs.CellReference | src/numbers_parser/model.py:1000-1027 | a row, a column or a cell resolves its index as absolute or relative to the formula's cell, keeps its absolute flag and has no end |
| RefText.Tripled | src/numbers_parser/xrefs.py:102-103 | tripling the quotes never shortens a name |
| RefText.UntripledTripled | src/numbers_parser/xrefs.py:102-103 | tripled quotes read back as the original name |
| RefText.QuotedReadsBack | src/numbers_parser/xrefs.py:100-103 | the quoting loses nothing: a name wrapped in quotes because it holds an operator, or one with its quotes tripled, reads back as the name |
| RefText.UntripledNoQuote | src/numbers_parser/xrefs.py:102-103 | a text without quotes reads back unchanged |
| RefText.ExpandRef | src/numbers_parser/xrefs.py:89-121 | `expand_ref` writes the quoted name bare when no prefix is asked for, when the name is unique in the document or when the reference stays in its table; otherwise it adds the table, or the sheet and the table, and nothing else |
| RefText.ExpandRefPrefixes | src/numbers_parser/xrefs.py:108-121 | to another table: a sheet-unique name in the same sheet is bare unless absolute; the table name alone suffices in the same sheet, for a table-unique name or a uniquely named table; only otherwise is the sheet named too |
| RefText.HeaderAt | src/numbers_parser/xrefs.py:145 | a header lookup succeeds exactly for an index present in the table's names, and returns that index's name or None; KeyError otherwise |
| RefText.RowRangeText | src/numbers_parser/xrefs.py:137-177 | `_format_row_range` fails only with KeyError, AttributeError or TypeError, and a row range without a start raises KeyError |
| RefText.ColumnRangeText | src/numbers_parser/xrefs.py:179-205 | `_format_col_range` fails only with KeyError, AttributeError, TypeError or, for a negative unnamed column, IndexError |
| RefText.CellRangeText | src/numbers_parser/xrefs.py:207-239 | `_format_cell_range` raises IndexError exactly when the start, or the end when both end indexes are given, has a negative index |
| RefText.RangeText | src/numbers_parser/xrefs.py:123-135 | `CellRange.__str__` fails only with KeyError, AttributeError, TypeError or IndexError |
| RefText.CellNameUnquoted | src/numbers_parser/xrefs.py:100-103 | a cell name holds no operator and no quote, so it is never quoted |
| RefText.SameTableCells | src/numbers_parser/xrefs.py:207-239 | a cell range inside its own table reads as the two cell names joined by ":", with no table prefix |
| RefText.SameTableCellsAsXlRange | src/numbers_parser/xrefs.py:207-239 | without "$" markers and with two different corners, a same-table cell range is written exactly as `xl_range` writes it |
| RefText.OtherTableCells | src/numbers_parser/xrefs.py:207-239 | a cell range into another table of the same sheet names that table once, before its start only: "Table::A1:B2" |
| RefText.NumberedRow | src/numbers_parser/xrefs.py:149-156 | a single row without a header name reads as its one-based number twice, "3:3", with "$" before each when absolute |
| RefText.NamedSpanBareEnd | src/numbers_parser/xrefs.py:158-177 | in a span of named headers the end is always bare, and the start too when either end is unique in the document |
| RefText.RelativeCellExample | src/numbers_parser/xrefs.py:207-218 | a relative cell reference one row down and two columns right of C3 reads "E4" |
| Tokenizer.MakeOperand | src/numbers_parser/tokenizer.py:456-478 | `make_operand`: an operand token holding the text, of subtype text, error, logical, number or range |
| Tokenizer.MakeSubexp | src/numbers_parser/tokenizer.py:484-507 | `make_subexp`: an IndexError on empty text; otherwise a token exactly when the text ends in a bracket and, for a function, matches `.+\(` or is ')'; the token is a function, array or parenthesis, opening or closing |
| Tokenizer.GetCloser | src/numbers_parser/tokenizer.py:509-526 | `get_closer`: only an opening function, array or parenthesis has a closer, ')' or '}' of the same type; anything else raises TokenizerError |
| Tokenizer.MakeSeparator | src/numbers_parser/tokenizer.py:532-539 | `make_separator`: a separator exactly for ',' (argument) and ';' (row), TokenizerError otherwise |
| Tokenizer.Saved | src/numbers_parser/tokenizer.py:392-396 | `save_token` empties the pending operand and leaves the stack alone |
| Tokenizer.QuoteEnd | src/numbers_parser/tokenizer.py:120-127 | the string pattern, when it matches, ends on the closing quote |
| Tokenizer.ConsumeString | src/numbers_parser/tokenizer.py:182-211 | `parse_string` reads at least one character, raises TokenizerError when a pending operand precedes the quote, and raises only TokenizerError |
| Tokenizer.FindFrom | src/numbers_parser/tokenizer.py:215 | `str.find` gives -1 or the index of the character from the start position on |
| Tokenizer.ConsumeBrackets | src/numbers_parser/tokenizer.py:213-229 | `parse_brackets` reads at least one character or raises TokenizerError |
| Tokenizer.FirstCode | src/numbers_parser/tokenizer.py:231-249 | the error code found is one of `ERROR_CODES` and starts the rest of the formula |
| Tokenizer.ConsumeError | src/numbers_parser/tokenizer.py:231-249 | `parse_error` reads at least one character or raises TokenizerError |
| Tokenizer.ConsumeOperator | src/numbers_parser/tokenizer.py:265-294 | `parse_operator` never fails and reads at least one character |
| Tokenizer.OperatorToken | src/numbers_parser/tokenizer.py:265-294 | the operator token holds exactly the one or two characters read |
| Tokenizer.ConsumeOpener | src/numbers_parser/tokenizer.py:296-318 | `parse_opener` reads one character or raises TokenizerError |
| Tokenizer.ConsumeCloser | src/numbers_parser/tokenizer.py:320-336 | `parse_closer` reads one character; a closer with no opener on the stack raises IndexError from `pop`, a mismatched closer TokenizerError |
| Tokenizer.ConsumeSeparator | src/numbers_parser/tokenizer.py:338-363 | `parse_separator` succeeds exactly on ';' and ',' and reads one character |
| Tokenizer.Consume | src/numbers_parser/tokenizer.py:154-174 | the consumer the dispatcher picks reads at least one character |
| Tokenizer.Step | src/numbers_parser/tokenizer.py:167-179 | every pass of the loop advances the offset |
| Tokenizer.ValuesSnoc | src/numbers_parser/tokenizer.py:405 | the joined text of one more token ends with that token's text |
| Tokenizer.SaveKeepsText | src/numbers_parser/tokenizer.py:392-396 | saving moves the pending text into the tokens without losing or adding any |
| Tokenizer.ConsumeKeepsText | src/numbers_parser/tokenizer.py:154-174 | each consumer adds exactly the characters it read to the text read |
| Tokenizer.OtherKeepsText | src/numbers_parser/tokenizer.py:265-363 | the same for operators, openers, closers and separators |
| Tokenizer.OperatorEndsToken | src/numbers_parser/tokenizer.py:129-171 | every operator character is a token ender, so the pending operand is saved before it |
| Tokenizer.BracketsKeepsText | src/numbers_parser/tokenizer.py:213-229 | `parse_brackets` adds exactly what it read |
| Tokenizer.OpenerKeepsText | src/numbers_parser/tokenizer.py:296-318 | `parse_opener` adds exactly what it read |
| Tokenizer.CloserKeepsText | src/numbers_parser/tokenizer.py:320-336 | `parse_closer` adds exactly what it read |
| Tokenizer.SeparatorKeepsText | src/numbers_parser/tokenizer.py:338-363 | `parse_separator` adds exactly what it read |
| Tokenizer.StringKeepsText | src/numbers_parser/tokenizer.py:182-211 | `parse_string` adds exactly what it read |
| Tokenizer.ErrorKeepsText | src/numbers_parser/tokenizer.py:231-249 | `parse_error` adds exactly what it read |
| Tokenizer.OperatorKeepsText | src/numbers_parser/tokenizer.py:265-294 | `parse_operator` adds exactly what it read |
| Tokenizer.OneMore | src/numbers_parser/tokenizer.py:296-363 | a consumer that adds one token holding its one character adds exactly that character |
| Tokenizer.StepKeepsText | src/numbers_parser/tokenizer.py:167-179 | one pass of the loop adds exactly the characters it read |
| Tokenizer.RunKeepsText | src/numbers_parser/tokenizer.py:167-180 | the loop reads every remaining character into the tokens or the pending operand, in order |
| Tokenizer.JoinSlices | src/numbers_parser/tokenizer.py:167-179 | consecutive slices of the formula join up |
| Tokenizer.ShapedSnoc | src/numbers_parser/tokenizer.py:296-363 | a token that fits keeps the tokens well formed and the open stack as given |
| Tokenizer.SaveKeepsShape | src/numbers_parser/tokenizer.py:392-396 | saving an operand keeps the tokens well formed |
| Tokenizer.StringKeepsShape | src/numbers_parser/tokenizer.py:182-211 | `parse_string` keeps the tokens well formed and the stack in step |
| Tokenizer.ErrorKeepsShape | src/numbers_parser/tokenizer.py:231-249 | `parse_error` keeps the tokens well formed and the stack in step |
| Tokenizer.OperatorKeepsShape | src/numbers_parser/tokenizer.py:265-294 | `parse_operator` keeps the tokens well formed and the stack in step |
| Tokenizer.OperatorFits | src/numbers_parser/tokenizer.py:265-294 | '+' and '-' are infix exactly after an operand, a closer or a postfix operator, and '%' is postfix |
| Tokenizer.OpenerKeepsShape | src/numbers_parser/tokenizer.py:296-318 | `parse_opener` pushes the opener and keeps the stack in step with the tokens |
| Tokenizer.CloserKeepsShape | src/numbers_parser/tokenizer.py:320-336 | `parse_closer` pops the opener it closes and keeps the stack in step with the tokens |
| Tokenizer.SeparatorKeepsShape | src/numbers_parser/tokenizer.py:338-363 | `parse_separator` keeps the tokens well formed and the stack in step |
| Tokenizer.ConsumeKeepsShape | src/numbers_parser/tokenizer.py:154-174 | every consumer keeps the tokens well formed and the stack in step |
| Tokenizer.StepKeepsShape | src/numbers_parser/tokenizer.py:167-179 | one pass of the loop keeps the tokens well formed and the stack in step |
| Tokenizer.RunKeepsShape | src/numbers_parser/tokenizer.py:167-180 | the whole loop keeps the tokens well formed and the stack in step |
| Tokenizer.TokensFit | src/numbers_parser/tokenizer.py:145-180 | the tokens of a formula are well formed: every closer closes the innermost opener, every separator lies where its kind belongs, every operator is prefix, infix or postfix as its place says |
| Tokenizer.FirstNotLiteral | src/numbers_parser/tokenizer.py:149-153 | a scanned formula has no literal token |
| Tokenizer.RenderTokenize | src/numbers_parser/tokenizer.py:145-180 | rendering the tokens gives the formula back, except that "=" alone has no tokens and renders as "" |
| Tokenizer.Escaped | src/numbers_parser/tokenizer.py:120-127 | doubling quotes never shortens a string |
| Tokenizer.QuoteEndEscaped | src/numbers_parser/tokenizer.py:120-127 | a string whose body doubles every quote ends at the single quote after it |
| Tokenizer.QuoteEndNone | src/numbers_parser/tokenizer.py:120-127 | with no closing quote the string pattern does not match |
| Tokenizer.QuotedTextOperand | src/numbers_parser/tokenizer.py:182-211 | a formula that is one double-quoted string is one text operand holding it |
| Tokenizer.QuotedStringStep | src/numbers_parser/tokenizer.py:182-211 | the one pass that reads a whole quoted string |
| Tokenizer.QuoteStep | src/numbers_parser/tokenizer.py:155-174 | a double quote ends no operand and is read by `parse_string` |
| Tokenizer.QuoteNotEnder | src/numbers_parser/tokenizer.py:129-166 | a double quote is not a token ender and has a consumer |
| Tokenizer.UnterminatedString | src/numbers_parser/tokenizer.py:182-211 | a string or link that is never closed raises TokenizerError |
| Tokenizer.PlainStep | src/numbers_parser/tokenizer.py:175-179 | a character with no consumer joins the pending operand |
| Tokenizer.OperatorStep | src/numbers_parser/tokenizer.py:171-174 | an operator saves the pending operand, then adds its own token |
| Tokenizer.SignStep | src/numbers_parser/tokenizer.py:265-294 | a sign with no pending operand is an operator too |
| Tokenizer.RunStep | src/numbers_parser/tokenizer.py:167-179 | the loop goes on from wherever one pass leaves it |
| Tokenizer.LettersAndDigitsArePlain | src/numbers_parser/tokenizer.py:129-166 | letters and digits neither end a token nor have a consumer |
| Tokenizer.PlainRun | src/numbers_parser/tokenizer.py:175-179 | characters with no consumer all join the pending operand |
| Tokenizer.TokenizeOfRun | src/numbers_parser/tokenizer.py:145-180 | a formula after "=" tokenizes to what the loop leaves, with the pending operand saved |
| Tokenizer.PrefixMinusExample | src/numbers_parser/tokenizer.py:265-294 | "=-A1" is a prefix minus and a range operand |
| Tokenizer.LeadingMinus | src/numbers_parser/tokenizer.py:265-294 | a minus right after "=" is a prefix operator |
| Tokenizer.PostfixPercentExample | src/numbers_parser/tokenizer.py:265-294 | "=A1%" is a range operand and a postfix '%' |
| Tokenizer.ParenthesisExample | src/numbers_parser/tokenizer.py:296-336 | "=(1)" is an opening parenthesis, a number operand and a closing parenthesis |
| Tokenizer.ParenOpens | src/numbers_parser/tokenizer.py:296-318 | a '(' with no pending operand opens a parenthesis and pushes it |
| Tokenizer.OpenerStep | src/numbers_parser/tokenizer.py:160-174 | an opener is read by `parse_opener` without saving the pending operand |
| Tokenizer.OpenerChar | src/numbers_parser/tokenizer.py:129-166 | '(' is not a token ender and has a consumer |
| Tokenizer.CloserStep | src/numbers_parser/tokenizer.py:161-174 | a closer saves the pending operand and is read by `parse_closer` |
| Tokenizer.CloserChar | src/numbers_parser/tokenizer.py:129-166 | ')' is a token ender and has a consumer |
| Tokenizer.ParenCloses | src/numbers_parser/tokenizer.py:320-336 | ')' after "(1" saves the number and closes the parenthesis |
| Tokenizer.Tokenizer.constructor | src/numbers_parser/tokenizer.py:132-138 | a new tokenizer has no tokens, an empty stack and operand, and offset 0 |
| Tokenizer.Tokenizer.Parse | src/numbers_parser/tokenizer.py:145-180 | `parse` fills `items` with the tokens of the formula, or stops with the error `Tokenize` gives |
| Tokenizer.Tokenizer.Advance | src/numbers_parser/tokenizer.py:167-179 | one pass of the loop does what `Step` states |
| Tokenizer.Tokenizer.Dispatch | src/numbers_parser/tokenizer.py:173-174 | the dispatcher runs the consumer `Consume` picks |
| Tokenizer.Tokenizer.CheckScientificNotation | src/numbers_parser/tokenizer.py:365-378 | a sign right after a mantissa and "E" joins the pending operand; otherwise nothing changes |
| Tokenizer.Tokenizer.AssertEmptyToken | src/numbers_parser/tokenizer.py:380-390 | TokenizerError exactly when an operand is pending |
| Tokenizer.Tokenizer.SaveToken | src/numbers_parser/tokenizer.py:392-396 | `save_token` does what `Saved` states |
| Tokenizer.Tokenizer.ParseString | src/numbers_parser/tokenizer.py:182-211 | `parse_string` does what `ConsumeString` states |
| Tokenizer.Tokenizer.ParseBrackets | src/numbers_parser/tokenizer.py:213-229 | `parse_brackets` does what `ConsumeBrackets` states |
| Tokenizer.Tokenizer.ParseError | src/numbers_parser/tokenizer.py:231-249 | the loop of `parse_error` does what `ConsumeError` states |
| Tokenizer.Tokenizer.ParseOperator | src/numbers_parser/tokenizer.py:265-294 | `parse_operator` does what `ConsumeOperator` states |
| Tokenizer.Tokenizer.ParseOpener | src/numbers_parser/tokenizer.py:296-318 | `parse_opener` does what `ConsumeOpener` states |
| Tokenizer.Tokenizer.ParseCloser | src/numbers_parser/tokenizer.py:320-336 | `parse_closer` does what `ConsumeCloser` states |
| Tokenizer.Tokenizer.ParseSeparator | src/numbers_parser/tokenizer.py:338-363 | `parse_separator` does what `ConsumeSeparator` states |
| Tokenizer.Tokenizer.Render | src/numbers_parser/tokenizer.py:398-405 | `render`: "" with no tokens, the literal's text, or "=" and the token texts joined |
| Tokenizer.RunFails | src/numbers_parser/tokenizer.py:167-179 | a pass that fails ends the loop with its error |
| NumbersRange.NonColonRun | src/numbers_parser/tokenizer.py:6-7 | `[^:]+` runs to the next ':' or the end: no ':' inside it, and a ':' right after it unless the text ends |
| NumbersRange.SplitName | src/numbers_parser/tokenizer.py:6-7 | a prefix `name::` splits off a non-empty name without ':' and the rest |
| NumbersRange.MatchCell | src/numbers_parser/tokenizer.py:9-12 | a start cell, when found, lies inside the text |
| NumbersRange.DigitColumnCell | src/numbers_parser/tokenizer.py:10-11 | a cell whose column is digits lies inside the text |
| NumbersRange.LetterColumnCell | src/numbers_parser/tokenizer.py:10-11 | a cell whose column is letters lies inside the text |
| NumbersRange.MatchBody | src/numbers_parser/tokenizer.py:8-22 | the part after the prefixes is a cell or range, with both start groups, or else a named range made of word characters that is the whole part |
| NumbersRange.StripDollars | src/numbers_parser/tokenizer.py:59 | `lstrip("$")` leaves no leading '$' and never lengthens the text |
| NumbersRange.ColumnIndex | src/numbers_parser/tokenizer.py:56-63 | the accumulation loop of `col_to_index` computes `ColToIndex` |
| NumbersRange.RowToIndex | src/numbers_parser/tokenizer.py:65-66 | `int(row.lstrip("$")) - 1` raises ValueError exactly when what is left is empty or not all digits |
| NumbersRange.ParseNumbersRangeAsWritten | src/numbers_parser/tokenizer.py:39-83 | as written: a ValueError when the text does not match the pattern |
| NumbersRange.NamedRangeRaisesAsWritten | src/numbers_parser/tokenizer.py:66-78 | as written, every named range raises ValueError, from `int("")` on its absent row |
| NumbersRange.ParseNumbersRange | src/numbers_parser/tokenizer.py:39-83 | as the converters mean it: a ValueError exactly when the text does not match the pattern |
| NumbersRange.NamedRangeExample | src/numbers_parser/tokenizer.py:21-78 | "cats" raises as written; corrected it is a named range with no cell indices |
| NumbersRange.TableRangeExample | src/numbers_parser/tokenizer.py:6-83 | "T::B2:C$3" is table "T", columns 1 to 2, rows 1 to 2, only the end row absolute |
| NumbersRange.ExampleIndices | src/numbers_parser/tokenizer.py:56-66 | "B" and "C" are columns 1 and 2; "2" and "$3" are rows 1 and 2 |
| NumbersRange.ExampleGroups | src/numbers_parser/tokenizer.py:3-26 | the groups "T::B2:C$3" matches |
| NumbersRange.ExampleBody | src/numbers_parser/tokenizer.py:8-19 | the groups of the range part "B2:C$3" |
| NumbersRange.ExampleCell | src/numbers_parser/tokenizer.py:9-12 | the start cell of "B2:C$3" is column "B", row "2", ending before the ':' |
| NumbersRange.ExampleEnd | src/numbers_parser/tokenizer.py:15-18 | the end "C$3" is column "C", row "$3" |
| NumbersRange.EndDefaultsToStart | src/numbers_parser/tokenizer.py:77-82 | with no end given, the end column, end row and their absolute flags are those of the start |
| NumbersRange.ColumnIndexOfLetters | src/numbers_parser/tokenizer.py:56-63 | a column of letters reads as bijective base 26 less one, and `xl_col_to_name` writes the index back as the same letters |
| NumbersRange.ColumnValueOfLetters | src/numbers_parser/tokenizer.py:60-62 | on capital letters the accumulation is the bijective base-26 value |
| NumbersRange.CellNameReadsBack | src/numbers_parser/tokenizer.py:39-83 | a cell name written by `xl_rowcol_to_cell` parses back to that row and column, the end equal to the start, and the '$' markers as the absolute flags |
| NumbersRange.ColumnOfName | src/numbers_parser/tokenizer.py:56-63 | the column letters `xl_col_to_name` writes, with or without '$', read back as the column, and the '$' as the absolute flag |
| NumbersRange.RowOfName | src/numbers_parser/tokenizer.py:65-66 | the row number written one-based, with or without '$', reads back as the row, and the '$' as the absolute flag |
| NumbersRange.ParseCell | src/numbers_parser/tokenizer.py:68-83 | the groups of a single cell convert to that cell as both start and end |
| NumbersRange.DollarPrefix | src/numbers_parser/tokenizer.py:59-82 | an optional '$' is stripped and tells the absolute flag |
| NumbersRange.CellMatches | src/numbers_parser/tokenizer.py:3-26 | '$'? letters '$'? digits matches the pattern as a single cell with those column and row groups |
| NumbersRange.CellOfParts | src/numbers_parser/tokenizer.py:9-12 | such a name is read as the start cell in full |
| NumbersRange.CellScan | src/numbers_parser/tokenizer.py:10-11 | the scan of a cell name, given the runs it meets, finds its column and row |
| NumbersRange.LetterColumnCellOf | src/numbers_parser/tokenizer.py:10-11 | a column of letters followed by a row running to the end is read as that cell |
| NumbersRange.ConcatParts | src/numbers_parser/tokenizer.py:9-12 | a cell name splits back into its column and row text |
| NumbersRange.PlainCell | src/numbers_parser/tokenizer.py:3-26 | a cell name with no ':' and no final newline matches as that cell alone |
| NumbersRange.NoColonIn | src/numbers_parser/tokenizer.py:6-7 | a cell name holds no ':' and does not end in a newline |
| NumbersRange.LetterRun | src/numbers_parser/tokenizer.py:10-11 | the letters of a column are one run not starting with a digit, and what follows tells whether the row has its '$' |
| NumbersRange.DigitRunAtEnd | src/numbers_parser/tokenizer.py:11 | the digits of a row run to the end of the name |
| NumbersRange.NonColonRunAll | src/numbers_parser/tokenizer.py:6-7 | text without ':' is one run of it |
| Rpn.PrecedenceAsWritten | src/numbers_parser/formula.py:21 | `OPERATOR_PRECEDENCE` as written: precedences from 2 to 6, and no entry for the comparisons or the union |
| Rpn.Precedence | src/numbers_parser/formula.py:21 | the corrected precedence agrees with the dictionary on every key it holds, puts the comparisons below everything and stays within 1 to 7 |
| Rpn.PrecedenceTable | src/numbers_parser/formula.py:21 | "×" binds at 4 and "+" at 3; ">" has no entry as written and binds at 1 corrected |
| Rpn.Lookup | src/numbers_parser/formula.py:565 | a precedence lookup as written raises KeyError exactly for an operator the dictionary lacks; corrected it never fails |
| Rpn.Bump | src/numbers_parser/formula.py:553-554 | an operand adds one to the argument count of a function on top of the stack and changes nothing else |
| Rpn.Reversed | src/numbers_parser/formula.py:590-591 | the stack emptied top first keeps every operator |
| Rpn.RunAppend | src/numbers_parser/formula.py:550-588 | running the loop over two pieces of input is running it over the first, then the second, stopping at an error |
| Rpn.PopHigherLoop | src/numbers_parser/formula.py:562-567 | the loop before an infix operator pops every infix operator on top that binds at least as tightly |
| Rpn.PopToLoop | src/numbers_parser/formula.py:570-573 | the loops before a closer pop up to the function or opening bracket on top |
| Rpn.ReadToken | src/numbers_parser/formula.py:550-588 | one turn of the loop over the tokens does what `Step` states |
| Rpn.RpnTokens | src/numbers_parser/formula.py:546-593 | `rpn_tokens` computes `Rpn`: the loop, then the operators left on the stack, top first |
| Rpn.OperandsAppend | src/numbers_parser/formula.py:551-552 | the operands of joined token lists are those of each, in order |
| Rpn.StepOperands | src/numbers_parser/formula.py:550-588 | every turn of the loop adds its own operand, if it is one, to the output's operands and never puts an operand on the stack |
| Rpn.RunOperands | src/numbers_parser/formula.py:550-588 | the loop moves the operands to the output in the order they come |
| Rpn.RpnKeepsOperandOrder | src/numbers_parser/formula.py:546-593 | the conversion keeps every operand, in its original order, in both versions |
| Rpn.PendingLevels | src/numbers_parser/formula.py:562-568 | the operators an expression leaves on the stack bind at least as tightly as the expression |
| Rpn.EmittedPending | src/numbers_parser/formula.py:590-591 | what an expression sends to the output, followed by its waiting operators popped top first, is its reverse Polish notation |
| Rpn.PopHigherAll | src/numbers_parser/formula.py:562-567 | an infix operator pops every waiting operator that binds at least as tightly, top first, and stops at a barrier |
| Rpn.StepInfix | src/numbers_parser/formula.py:561-568 | an infix operator pops the waiting operators of its left operand and then waits itself |
| Rpn.StepParenClose | src/numbers_parser/formula.py:580-586 | a closing parenthesis pops everything above its opening one and the opening one |
| Rpn.StepFuncClose | src/numbers_parser/formula.py:569-575 | a function's closing parenthesis pops everything above the function, then the function |
| Rpn.StepComma | src/numbers_parser/formula.py:576-578 | corrected, a separator pops every operator of its argument |
| Rpn.RunInfix | src/numbers_parser/formula.py:550-588 | reading an expression's tokens sends its emitted part to the output and leaves its right-spine operators waiting |
| Rpn.RunArgs | src/numbers_parser/formula.py:550-588 | corrected, a function's arguments go to the output in reverse Polish notation, then the function with its argument count |
| Rpn.RpnCorrect | src/numbers_parser/formula.py:546-593 | the corrected conversion turns the tokens of every well-formed expression into its reverse Polish notation |
| Rpn.RpnAsWrittenSimple | src/numbers_parser/formula.py:546-593 | the code as written does so for expressions with no function call and no operator missing from the dictionary |
| Rpn.LeftAssociativeExample | src/numbers_parser/formula.py:561-568 | "a+b×c+d" becomes "a b c × + d +" as written |
| Rpn.SeparatorPopsOneOperator | src/numbers_parser/formula.py:576-578 | `F(a+b×c,d)`: as written the separator pops only "×", so "+" lands after d and F counts one argument; corrected the result is "a b c × + d F/2" |
| Rpn.CallArgumentNotCounted | src/numbers_parser/formula.py:553-558 | `F(a,G())`: as written a nested call is not counted as an argument, so F counts 1; corrected it counts 2 |
| Rpn.ParenthesisClosesCall | src/numbers_parser/formula.py:583-588 | `F((a),b)`: as written the ')' of the inner parenthesis also pops F, which ends up before b with no arguments; corrected the result is "a b F/2" |
| Rpn.ComparisonAfterOperatorFails | src/numbers_parser/formula.py:21-565 | `a+b>c`: as written the lookup of ">" raises KeyError; corrected the result is "a b + c >" |
| Formula.Renderer.constructor | src/numbers_parser/formula.py:264-270 | a new `Formula` starts with an empty stack and no warnings |
| Formula.Renderer.Push | src/numbers_parser/formula.py:607-608 | `push` puts the value on top and changes nothing else |
| Formula.Renderer.Pop | src/numbers_parser/formula.py:598-599 | `pop` returns the top and removes it, or fails with IndexError on an empty stack |
| Formula.Renderer.PopN | src/numbers_parser/formula.py:601-605 | `popn(n)` returns the top `n` entries, top first, and removes them; IndexError when the stack holds fewer |
| Formula.Renderer.BinaryOp | src/numbers_parser/formula.py:610-612 | an infix handler replaces the two top entries by "left op right", the left operand being the lower one; IndexError with fewer than two |
| Formula.Renderer.EqualsOp | src/numbers_parser/formula.py:657-660 | `equals`, although it unpacks its operands the other way round, renders "left=right" like every other infix handler |
| Formula.Renderer.LeafOp | src/numbers_parser/formula.py:724-730 | `empty`, `string`, `number`, `boolean`, `date` and `xref` push their node's text and pop nothing |
| Formula.Renderer.UnaryOp | src/numbers_parser/formula.py:716-734 | `negate` and `percent` replace the top entry by "-x" or "x%"; IndexError on an empty stack |
| Formula.Renderer.RangeOp | src/numbers_parser/formula.py:740-749 | `range` replaces the two top entries by "a:b", keeping the table part of a cross-table start only once |
| Formula.Renderer.ListOp | src/numbers_parser/formula.py:706-710 | `list` replaces the top `numArgs` entries by them joined with "," in stack order, in parentheses |
| Formula.Renderer.FunctionOp | src/numbers_parser/formula.py:662-688 | `function` renders the table's name or "UNDEFINED!", takes at most what the stack holds, and raises one warning for an unknown index and one for a short stack |
| Formula.Renderer.ArrayOp | src/numbers_parser/formula.py:614-631 | `array` replaces the top rows×cols entries by the rows in stack order, "," within a row and ";" between rows, in braces |
| Formula.Renderer.PopRows | src/numbers_parser/formula.py:625-629 | the loop over the rows pops rows×cols entries, last row first, and the rows it keeps, reversed, are the groups of `cols` in stack order |
| Formula.Renderer.DispatchNode | src/numbers_parser/formula.py:870-883 | one node: "#REF!" for a reference error, a warning and nothing else for an unknown node type, nothing for a type mapped to None, otherwise its handler |
| Formula.FormulaOf | src/numbers_parser/formula.py:858-885 | `TableFormulas.formula` gives "INVALID_KEY!(k)" with a warning for a missing key, otherwise the stack left by the nodes joined top first, or the IndexError a handler raised |
| Formula.Apply | src/numbers_parser/formula.py:598-765 | the only error a handler can raise is IndexError, from popping more than the stack holds |
| Formula.RangeText | src/numbers_parser/formula.py:740-749 | `range` fails only with IndexError, when the start is a cross-table reference and the end has no "::" |
| Formula.Rows | src/numbers_parser/formula.py:625-630 | an array of `rows` rows renders `rows` row texts |
| Formula.SplitOn | src/numbers_parser/formula.py:744-745 | `str.split` always gives at least one piece |
| Formula.ContainsSplits | src/numbers_parser/formula.py:744-746 | a reference containing "::" splits into at least two pieces, so `arg1_parts[1]` exists |
| Formula.SplitOnPair | src/numbers_parser/formula.py:744-747 | "T::A1" splits into ["T", "A1"] when "A1" holds no ':' |
| Formula.RenderStops | src/numbers_parser/formula.py:869-883 | a node that fails stops the loop: what follows it does not change the outcome |
| Formula.RenderAppend | src/numbers_parser/formula.py:869-883 | rendering two node arrays is rendering the first and then the second from where it ended |
| Formula.RenderTree | src/numbers_parser/formula.py:869-883 | the postfix nodes of an expression push exactly its infix text, with no warning |
| Formula.RenderArgs | src/numbers_parser/formula.py:869-883 | the nodes of a call's arguments push their texts in order |
| Formula.FormulaOfTree | src/numbers_parser/formula.py:858-885 | a stored formula that spells an expression renders as that expression's text: the renderer inverts the postfix storage |
| Formula.ReverseReverse | src/numbers_parser/formula.py:603-631 | reversing what `popn` returned gives the entries back in stack order |
| Formula.RowsAt | src/numbers_parser/formula.py:625-630 | row `i` of an array is the `i`-th group of `cols` entries, starting at `i * cols`, joined with "," |
| Formula.ArrayOneRow | src/numbers_parser/formula.py:618-622 | a one-row array renders "{a,b,...}" over its `numCols` entries in stack order |
| Formula.CrossTableRange | src/numbers_parser/formula.py:740-749 | a range between two cross-table cells keeps the table once: "T::A1" and "T::B2" give "T::A1:B2" |
| Formula.UndefinedFunctionExample | src/numbers_parser/formula.py:665-674 | an unknown function index renders "UNDEFINED!(1,2)" with an unsupported-function warning |
| Formula.StackTooSmallExample | src/numbers_parser/formula.py:676-683 | SUM asking for three arguments over two entries renders "SUM(1,2)" and warns that the stack is too small |
| Formula.UnsupportedNodeExample | src/numbers_parser/formula.py:874-880 | a node type missing from `NODE_FUNCTION_MAP` only adds a warning |
| Formula.SkippedNodes | src/numbers_parser/formula.py:767-846 | whitespace and thunk markers are mapped to None and change nothing |
| Formula.ReferenceErrorExample | src/numbers_parser/formula.py:872-873 | a reference-error node pushes "#REF!" |
| FormulaArchives.UndoubleDoubled | src/numbers_parser/formula.py:500-505 | undoubling the quotes of a text whose quotes were doubled gives the text back |
| FormulaArchives.QuoteRoundTrip | src/numbers_parser/formula.py:494-509 | `text_archive` reads back every string the renderer's `string` handler writes: the two are inverse |
| FormulaArchives.DecimalHigh | src/numbers_parser/formula.py:481 | the high word for exponent 0 is 0x3040000000000000, the marker the renderer reads as "integer" |
| FormulaArchives.ExponentValue | src/numbers_parser/formula.py:479 | `int(exponent)` fails only with ValueError |
| FormulaArchives.StripZeros | src/numbers_parser/formula.py:478 | removing the trailing zeros leaves a prefix ending in a non-zero digit, and the input is that prefix followed by zeros only |
| FormulaArchives.Fields | src/numbers_parser/formula.py:478-481 | building the decimal fields fails only with ValueError, from the exponent |
| FormulaArchives.KeptDigits | src/numbers_parser/formula.py:478-480 | the significand's digits with the fraction's trailing zeros removed are still digits |
| FormulaArchives.SplitExponent | src/numbers_parser/formula.py:473-477 | unpacking `value.split("E")` fails only with ValueError, when the literal holds more than one "E" |
| FormulaArchives.NumberArchiveAsWritten | src/numbers_parser/formula.py:455-488 | a whole number is stored as itself with the integer marker |
| FormulaArchives.NumberArchive | src/numbers_parser/formula.py:455-488 | the same, and with a significand without a point read as having no fraction digits the only failure left is ValueError |
| FormulaArchives.IntegerRendersExactly | src/numbers_parser/formula.py:463-468 | the node of a whole number renders as exactly its digits, and those digits read back as the number |
| FormulaArchives.DigitsValueZeros | src/numbers_parser/formula.py:478-480 | appending n zeros multiplies a digit string's value by 10^n |
| FormulaArchives.FieldsExact | src/numbers_parser/formula.py:478-481 | the stored decimal stands for the literal's exact value: low × 10^(dropped zeros) is the digits' value and the exponent drops by the fraction length |
| FormulaArchives.FieldsValue | src/numbers_parser/formula.py:478-481 | the fields are the digits' value without the trailing zeros, with the exponent lowered by the kept fraction digits |
| FormulaArchives.PointlessSignificand | src/numbers_parser/formula.py:473-478 | a literal "dE x" with no point raises IndexError as written; corrected it stores d with exponent x |
| FormulaArchives.OneTenthAsWritten | src/numbers_parser/formula.py:478 | "1E-1" raises IndexError as written; corrected it stores 1 with exponent -1 |
| FormulaArchives.CellReference | src/numbers_parser/formula.py:440-452 | a single-cell reference succeeds exactly when the parsed range has a start row and column |
| FormulaArchives.CellReferenceResolves | src/numbers_parser/formula.py:440-452 | the node of a cell reference, absolute or relative, points back at that cell from the formula's cell and keeps the "$" markers |
| FormulaArchives.CellReferenceOfName | src/numbers_parser/formula.py:336-452 | a cell name as `xl_rowcol_to_cell` writes it, parsed and archived, points back at that cell and keeps its markers |
| Csv2Numbers.KeyOf | src/numbers_parser/_csv2numbers.py:260 | a column name becomes a number exactly when it is a non-empty run of digits, and otherwise stays the name |
| Csv2Numbers.ParseColumns | src/numbers_parser/_csv2numbers.py:257-263 | `parse_columns` gives one key per field, in order, each read as `KeyOf` reads it |
| Csv2Numbers.TrimStart | src/numbers_parser/_csv2numbers.py:85 | `lstrip` removes exactly the leading whitespace: what is left is a suffix that starts with a non-space |
| Csv2Numbers.TrimEnd | src/numbers_parser/_csv2numbers.py:85 | `rstrip` removes exactly the trailing whitespace: what is left is a prefix that ends with a non-space |
| Csv2Numbers.Collapse | src/numbers_parser/_csv2numbers.py:85 | collapsing whitespace runs empties only the empty text |
| Csv2Numbers.CollapseSingleSpaced | src/numbers_parser/_csv2numbers.py:85 | after `re.sub(r"\s+", " ", ...)` no two spaces are adjacent and every space is " " |
| Csv2Numbers.SqueezeShape | src/numbers_parser/_csv2numbers.py:84-85 | a cell squeezed with `--whitespace` neither starts nor ends with a space and holds single " " spaces only |
| Csv2Numbers.Coerced | src/numbers_parser/_csv2numbers.py:83-93 | coercing a cell fails only with ValueError, and only for a date column |
| Csv2Numbers.CoercedRow | src/numbers_parser/_csv2numbers.py:83-93 | a coerced row keeps its column names, and fails exactly when one of its date cells does not parse |
| Csv2Numbers.CoercedRows | src/numbers_parser/_csv2numbers.py:83-93 | every row is coerced on its own, and the rows keep their number and order |
| Csv2Numbers.Reversed | src/numbers_parser/_csv2numbers.py:78-79 | `reversed` puts row i at position n-1-i |
| Csv2Numbers.Indexes | src/numbers_parser/_csv2numbers.py:74-75 | a file without a header names its columns 0 to n-1 |
| Csv2Numbers.HeaderKeys | src/numbers_parser/_csv2numbers.py:74-75 | building the header fails exactly when the file has no header and no row to count the columns of |
| Csv2Numbers.Dicts | src/numbers_parser/_csv2numbers.py:76-79 | there is one dict per CSV line |
| Csv2Numbers.TransformData | src/numbers_parser/_csv2numbers.py:70-93 | `_transform_data` keeps one row per CSV line |
| Csv2Numbers.TransformDataOrder | src/numbers_parser/_csv2numbers.py:70-93 | row i holds the coerced cells of line i, or of line n-1-i with `reverse`, under the header's names |
| Csv2Numbers.CoercionRule | src/numbers_parser/_csv2numbers.py:87-93 | a non-date cell that `float` reads once its commas are removed becomes that number; one it does not read stays text |
| Csv2Numbers.SourceKeys | src/numbers_parser/_csv2numbers.py:155 | a transform has one source per ";"-separated piece |
| Csv2Numbers.NewLookup | src/numbers_parser/_csv2numbers.py:211-234 | LOOKUP is built exactly when it has two sources and its table loads, and keeps the first source only; otherwise RuntimeError |
| Csv2Numbers.FirstTruthyIsFirst | src/numbers_parser/_csv2numbers.py:175-181 | MERGE gives the first truthy source cell in source order, with every earlier one falsy, or "" when none is truthy |
| Csv2Numbers.Best | src/numbers_parser/_csv2numbers.py:238-244 | the match chosen is one of the table's entries |
| Csv2Numbers.BestIsLongest | src/numbers_parser/_csv2numbers.py:236-246 | LOOKUP picks the entry with the longest key found, ignoring ASCII case, in the source cell, the first one on ties; nothing exactly when no key matches |
| Csv2Numbers.LookedUp | src/numbers_parser/_csv2numbers.py:236-246 | a looked-up row gains the destination column and keeps all others; an empty table gives "" |
| Csv2Numbers.TransformedRows | src/numbers_parser/_csv2numbers.py:168-169 | transforming the rows keeps their number |
| Csv2Numbers.Transformed | src/numbers_parser/_csv2numbers.py:119-126 | a transform raises RuntimeError when a source is not a column, and appends its destination to the header only when it is new |
| Csv2Numbers.Renamed | src/numbers_parser/_csv2numbers.py:100 | renaming keeps the header's length |
| Csv2Numbers.RemoveFirst | src/numbers_parser/_csv2numbers.py:114 | `del header[header.index(col)]` succeeds exactly when the column is there, removing one occurrence; otherwise ValueError |
| Csv2Numbers.RemovedAll | src/numbers_parser/_csv2numbers.py:113-114 | the header loop removes one occurrence per column named, or fails with ValueError |
| Csv2Numbers.RemovedAllDistinct | src/numbers_parser/_csv2numbers.py:108-114 | distinct columns that are all in the header are all removed without error |
| Csv2Numbers.RowWithout | src/numbers_parser/_csv2numbers.py:115-117 | a row loses exactly the columns named, and fails exactly when one is missing or named twice |
| Csv2Numbers.RowsWithout | src/numbers_parser/_csv2numbers.py:115-117 | every row loses the columns on its own, and the rows keep their number |
| Csv2Numbers.Renames | src/numbers_parser/_csv2numbers.py:266-281 | building the rename map fails only with ArgumentTypeError |
| Csv2Numbers.RenameMapping | src/numbers_parser/_csv2numbers.py:270-276 | a "OLD:NEW" field maps OLD, read as a number when it is digits only, to NEW, later fields overriding earlier ones |
| Csv2Numbers.RenameWithoutColon | src/numbers_parser/_csv2numbers.py:271-273 | "foo" is rejected with ArgumentTypeError |
| Csv2Numbers.ParseColumnRenames | src/numbers_parser/_csv2numbers.py:266-281 | the loop over the fields builds the map `Renames` defines, stopping at the first bad field |
| Csv2Numbers.Converter.RenameColumns | src/numbers_parser/_csv2numbers.py:95-100 | `rename_columns` renames only header entries in the map and leaves the rows alone; the file now has a header |
| Csv2Numbers.Converter.DeleteColumns | src/numbers_parser/_csv2numbers.py:102-117 | RuntimeError with nothing changed when a column is absent; otherwise the columns leave the header and then every row |
| Csv2Numbers.Converter.TransformColumns | src/numbers_parser/_csv2numbers.py:119-126 | the transforms run in order and the converter ends where `TransformedAll` says, or the first failure is reported |
| Csv2Numbers.FailedStaysFailed | src/numbers_parser/_csv2numbers.py:123-126 | once a transform has raised, later ones are not run |
| Csv2Numbers.TransformRows | src/numbers_parser/_csv2numbers.py:168-169 | the row loop transforms every row, or fails with KeyError or AttributeError |
| Csv2Numbers.TransformRow | src/numbers_parser/_csv2numbers.py:175-246 | MERGE's loop and LOOKUP compute `TransformedRow`, failing only with KeyError or AttributeError |
| Csv2Numbers.MergeStep | src/numbers_parser/_csv2numbers.py:177-180 | one pass of MERGE's loop keeps an earlier truthy value and otherwise takes the current cell when truthy |
| Csv2Numbers.RemoveColumns | src/numbers_parser/_csv2numbers.py:113-114 | the header loop of `delete_columns` computes `RemovedAll` |
| Csv2Numbers.DeleteFromRows | src/numbers_parser/_csv2numbers.py:115-117 | the row loop of `delete_columns` computes `RowsWithout` |
| Csv2Numbers.NewConverter | src/numbers_parser/_csv2numbers.py:37-40 | a converter is built from what the CSV reader returned, holding `_transform_data`'s header and rows, or fails as it does |
| UnpackNumbers.IntOf | src/numbers_parser/numbers_uuid.py:24-33 | `int(v)` keeps a number as it is and fails only with ValueError or TypeError |
| UnpackNumbers.Field | src/numbers_parser/numbers_uuid.py:24-33 | reading a missing key raises KeyError |
| UnpackNumbers.DictUuid | src/numbers_parser/numbers_uuid.py:23-37 | the UUID constructor rejects a dictionary with UnsupportedError exactly when it has neither both low words nor both halves |
| UnpackNumbers.PrettifyValue | src/numbers_parser/_unpack_numbers.py:74-92 | a dictionary that is not UUID-shaped keeps its keys |
| UnpackNumbers.PrettifyMembers | src/numbers_parser/_unpack_numbers.py:75-83 | the walk over a dictionary's items keeps its keys |
| UnpackNumbers.PrettifyItems | src/numbers_parser/_unpack_numbers.py:84-92 | the walk over a list keeps its length |
| UnpackNumbers.PrettifyUuids | src/numbers_parser/_unpack_numbers.py:74-92 | `prettify_uuids` on a scalar raises TypeError, and on a dictionary keeps its keys |
| UnpackNumbers.SameKeysSameShape | src/numbers_parser/numbers_uuid.py:24-32 | whether a dictionary is taken up as a UUID depends only on its keys |
| UnpackNumbers.NoUuidUnchanged | src/numbers_parser/_unpack_numbers.py:74-92 | a structure with no UUID dictionary at any depth comes back unchanged |
| UnpackNumbers.PrettifiedValueClean | src/numbers_parser/_unpack_numbers.py:74-92 | after the walk no UUID dictionary is left in a value |
| UnpackNumbers.PrettifyIdempotent | src/numbers_parser/_unpack_numbers.py:74-92 | the walk leaves no UUID dictionary, so a second walk changes nothing |
| UnpackNumbers.NumberListsUnchanged | src/numbers_parser/_unpack_numbers.py:84-92 | a list of lists of numbers comes back unchanged |
| UnpackNumbers.HalvesBecomeString | src/numbers_parser/_unpack_numbers.py:77-79 | a value holding the two halves of a UUID becomes the UUID's string form |
| UnpackNumbers.DigitRunDigits | src/numbers_parser/_unpack_numbers.py:117 | a greedy `\d+` takes digits only and stops at the first non-digit |
| UnpackNumbers.MatchAt | src/numbers_parser/_unpack_numbers.py:117 | a match of `(\d+)\.(\d+)\.\d+` keeps a non-empty part strictly shorter than the match |
| UnpackNumbers.Replaced | src/numbers_parser/_unpack_numbers.py:117 | each step of the substitution consumes at least one character |
| UnpackNumbers.MatchThreeParts | src/numbers_parser/_unpack_numbers.py:117 | the pattern matches all of "X.Y.Z", keeping "X.Y" |
| UnpackNumbers.TruncatedThreeParts | src/numbers_parser/_unpack_numbers.py:117 | "X.Y.Z" is rewritten as "X.Y" |
| UnpackNumbers.TruncatedNoMatch | src/numbers_parser/_unpack_numbers.py:117 | a string where no match starts is left as it is |
| UnpackNumbers.TruncatedTwoParts | src/numbers_parser/_unpack_numbers.py:117 | "X.Y" is left as it is |
| UnpackNumbers.AllowedVersionParts | src/numbers_parser/_unpack_numbers.py:115-118 | "X.Y.Z" is allowed exactly when "X.Y" is a supported version, and so is "X.Y" |
| UnpackNumbers.AllowedVersionExample | src/numbers_parser/_unpack_numbers.py:115-118 | Numbers 14.1.2 is allowed |
| UnpackNumbers.RefusedVersionExample | src/numbers_parser/_unpack_numbers.py:115-118 | Numbers 9.3 is refused |
| UnpackNumbers.SupportedVersionsShape | src/numbers_parser/constants.py:82-98 | every supported version is a four-character "1X.Y" |
| Replacement.Utf16Len | keynote_parser/replacement.py:59-64 | a text takes at least as many UTF-16 code units as it has characters |
| Replacement.Utf16Append | keynote_parser/replacement.py:59-64 | the UTF-16 length of joined texts is the sum of their lengths |
| Replacement.Utf16LenBmp | keynote_parser/replacement.py:63-64 | text without characters beyond U+FFFF has as many code units as characters |
| Replacement.ParagraphOffsets | keynote_parser/replacement.py:57-64 | there is one offset per paragraph, one more than the newlines, and the first is 0 |
| Replacement.ParagraphOffsetsRise | keynote_parser/replacement.py:57-64 | the offsets rise strictly and the last lies within the text |
| Replacement.ParagraphOffsetsAfterNewlines | keynote_parser/replacement.py:57-64 | every offset after the first is the UTF-16 position just after a newline |
| Replacement.NewlinesGiveOffsets | keynote_parser/replacement.py:57-64 | every newline gives an offset: the UTF-16 position just after it |
| Replacement.NewParagraphOffsets | keynote_parser/replacement.py:57-64 | the loop that counts the surrogate-pair correction as it goes computes `ParagraphOffsets` |
| Replacement.ParagraphOffsetsExample | keynote_parser/replacement.py:57-64 | "a", an emoji and "b" on three lines give offsets 0, 2 and 5: the emoji takes two code units |
| Replacement.PyIndex | keynote_parser/replacement.py:96 | a clamped slice bound stays within the text |
| Replacement.Chunks | keynote_parser/replacement.py:93-98 | there is one substituted run per pair of neighbouring style entries, each `Chunk` |
| Replacement.Starts | keynote_parser/replacement.py:99-104 | each new start is the length of the substituted runs before it |
| Replacement.Restyled | keynote_parser/replacement.py:91-111 | restyling fails exactly when there are fewer than two entries, and otherwise gives one new index per entry |
| Replacement.MeasureAppend | keynote_parser/replacement.py:99-104 | lengths add up over joined texts, in characters and in code units |
| Replacement.RestyledRuns | keynote_parser/replacement.py:91-111 | the new indexes start at 0, each next one lies past the previous by the length of the substituted run between them, and the new text holds that run there, followed by the text after the last entry |
| Replacement.RestyleRuns | keynote_parser/replacement.py:91-108 | the loop over the entry pairs computes `Restyled` |
| Replacement.RunStep | keynote_parser/replacement.py:92-104 | one pass of the loop keeps `new_start` at the length of the runs so far |
| Replacement.StartsClosed | keynote_parser/replacement.py:104 | the start appended after the loop is the length of all the runs |
| Replacement.CodePointsOfBoundary | keynote_parser/replacement.py:91-96 | an index at a character boundary, in code units, finds that character again |
| Replacement.Boundaries | keynote_parser/replacement.py:91-96 | the code-unit index of each character position |
| Replacement.CharStyleIdentity | keynote_parser/replacement.py:87-111 | corrected, with a substitution that changes nothing, restyling gives back the text and its own indexes |
| Replacement.IdentityChunks | keynote_parser/replacement.py:93-98 | with a substitution that changes nothing, run l is the text between bounds l and l+1 |
| Replacement.ConcatRuns | keynote_parser/replacement.py:105-106 | runs that cut the text at rising bounds from 0 join up to the text before each bound |
| Replacement.EmojiRunsAsWritten | keynote_parser/replacement.py:91-104 | as written, an emoji before the second style makes the slices count characters against code-unit indexes: the replaced "a" takes the first style and the new indexes are 0, 4, 5 |
| Replacement.EmojiRunsCorrected | keynote_parser/replacement.py:91-104 | counted in code units the emoji keeps the first style, the replacement of "a" starts the second at 2 and "b" the third at 5 |
| Replacement.SameKeysHas | keynote_parser/replacement.py:25-28 | dictionaries with the same keys answer `in` alike |
| Replacement.MergeTwoDicts | keynote_parser/replacement.py:25-28 | the merge keeps every key of x |
| Replacement.MergeTwoDictsFind | keynote_parser/replacement.py:25-28 | `merge_two_dicts(x, y)` reads a key of y as y does and any other key as x does |
| Replacement.MergeOneKey | keynote_parser/replacement.py:25-28 | merging one key is setting it: x keeps its keys in their order |
| Replacement.Len | keynote_parser/replacement.py:67 | `len` is defined exactly for lists, dictionaries and strings |
| Replacement.Get | keynote_parser/replacement.py:56 | `x[key]` succeeds exactly for a dictionary holding the key and gives its value; otherwise KeyError for a dictionary and TypeError for anything else |
| Replacement.First | keynote_parser/replacement.py:56 | `x[0]` succeeds exactly for a non-empty list or string |
| Replacement.Indexes | keynote_parser/replacement.py:94-95 | one index is read per entry |
| Replacement.WithIndexes | keynote_parser/replacement.py:73-74 | setting the indexes keeps the number of entries and fails only with TypeError |
| Replacement.WithIndexesOk | keynote_parser/replacement.py:73-74 | setting the indexes succeeds exactly when every entry is a dictionary |
| Replacement.WithIndexesRead | keynote_parser/replacement.py:73-74 | the entries then read back the indexes they were given |
| Replacement.CorrectMultiline | keynote_parser/replacement.py:45-75 | the correction keeps the text object's keys |
| Replacement.MultilineOffsets | keynote_parser/replacement.py:45-75 | after the correction the text is unchanged and its paragraph entries read back the start of each paragraph in UTF-16 code units; NotImplementedError comes exactly from a paragraph count that differs from the entries |
| Replacement.Elements | keynote_parser/replacement.py:119-122 | `for obj in data` works exactly on lists, dictionaries and strings, and gives a list's items |
| Replacement.In | keynote_parser/replacement.py:123 | `key in data` works exactly on lists, dictionaries and strings, and on a dictionary asks for the key |
| Replacement.PerformOn | keynote_parser/replacement.py:113-136 | every change reported is one the substitution made; the end of the path substitutes exactly in strings; "[]" keeps a list's length; a dictionary keeps its keys; a missing key leaves the value alone and reports nothing; a scalar raises TypeError |
| Replacement.PerformOnAll | keynote_parser/replacement.py:119-122 | mapping over a list keeps its length and reports only genuine changes |
| Replacement.CorrectCharstyle | keynote_parser/replacement.py:76-111 | the text object keeps its keys and only genuine changes are reported |
| Replacement.Restyle | keynote_parser/replacement.py:87-111 | restyling keeps the text object's keys |
| Replacement.CharstyleEntries | keynote_parser/replacement.py:76-111 | with several character styles nothing is reported, the text becomes the restyled text and the entries read back the new starts |
| Replacement.RestyleEntries | keynote_parser/replacement.py:87-111 | what the restyling branch leaves: the restyled text and the new starts |
| Replacement.TwoParagraphsExample | keynote_parser/replacement.py:113-136 | replacing "a" by "xyz" in "a\nb" reports one change and moves the second paragraph style to code unit 4 |
| Replacement.TwoParagraphsWalk | keynote_parser/replacement.py:82-86 | without character styles the walk goes on into "text" and substitutes its one paragraph text |
| ReplacementRules.KeyPath | keynote_parser/replacement.py:34-40 | a dotted key path splits into at least one key, none holding a ".", and joining them with "." gives it back; a list is kept |
| ReplacementRules.DefaultKeyPathSteps | keynote_parser/replacement.py:31 | the default key path is the eight keys chunks, [], archives, [], objects, [], text, [] |
| ReplacementRules.SplitStep | keynote_parser/replacement.py:38 | a key without "." followed by "." and the rest splits into that key and the rest's keys |
| JsonValues.Find | keynote_parser/replacement.py:25-28 | `d[key]` finds a value exactly when the key is there |
| JsonValues.Keys | keynote_parser/replacement.py:25-28 | the keys of a dictionary, one per member, in order |
| JsonValues.SetKey | keynote_parser/replacement.py:25-28 | `d[key] = v` keeps the keys where the key exists and appends it otherwise |
| JsonValues.SetKeyFind | keynote_parser/replacement.py:25-28 | after `d[key] = v`, `d[key]` is v and every other key reads as before |
| UnicodeUtils.FromSurrogatePair | keynote_parser/unicode_utils.py:20-24 | as written the pair's value is returned whenever it is positive; every true high/low surrogate pair gives an astral code point |
| UnicodeUtils.FromSurrogatePairStrict | keynote_parser/unicode_utils.py:20-24 | the intended decoding gives a character exactly for a high surrogate followed by a low one, and then agrees with the code as written |
| UnicodeUtils.TruncDiv | keynote_parser/unicode_utils.py:29 | `int(a / b)` truncates toward zero: Euclidean quotient for a ≥ 0, minus the quotient of −a otherwise |
| UnicodeUtils.ToSurrogatePair | keynote_parser/unicode_utils.py:27-31 | an astral code point splits into a high and a low surrogate; the low unit is always in the low-surrogate range |
| UnicodeUtils.SplitThenJoin | keynote_parser/unicode_utils.py:20-31 | every astral character comes back from its surrogate pair, under both decodings |
| UnicodeUtils.JoinThenSplit | keynote_parser/unicode_utils.py:20-31 | every high/low surrogate pair comes back from the character it encodes |
| UnicodeUtils.PairEscapes | keynote_parser/unicode_utils.py:16 | every group `PY2_SURROGATE_PAIR_RE` finds is two runs of four hex digits |
| UnicodeUtils.WideEscapes | keynote_parser/unicode_utils.py:17 | every group `PY3_MULTIBYTE_RE` finds is eight hex digits |
| UnicodeUtils.Py2Escape | keynote_parser/unicode_utils.py:53-58 | the Python 2 form of an astral character is a 12-character `\uHHHH\uLLLL` escape |
| UnicodeUtils.Py3Escape | keynote_parser/unicode_utils.py:40-45 | the Python 3 form `\U%08x` is a 10-character wide escape |
| UnicodeUtils.ToPy3Compatible | keynote_parser/unicode_utils.py:34-46 | the loop over the groups found in the input computes `Py3Compatible`, rewriting each surrogate pair's two spellings |
| UnicodeUtils.Py3CompatibleLeavesNonSurrogates | tests/test_unicode_utils.py:4-20 | text none of whose escape pairs is a surrogate pair is returned unchanged |
| UnicodeUtils.Py3OfPy2Escape | keynote_parser/unicode_utils.py:34-46 | the `\uHHHH\uLLLL` form of any astral character becomes its `\U` form, as written and as intended |
| UnicodeUtils.RegionalIndicatorExample | tests/test_unicode_utils.py:9-10 | `🇨` and `\U0001f1e8` convert into each other |
| UnicodeUtils.GermanExampleAsWritten | keynote_parser/unicode_utils.py:20-24 | as written, `￼“."` decodes to 10499100 and is rewritten to `\U00a0341c."` although it holds no surrogate pair |
| UnicodeUtils.GermanExample | tests/test_unicode_utils.py:18-20 | with surrogate pairs only, `￼“."` is returned unchanged |
| UnicodeUtils.ToPy2Compatible | keynote_parser/unicode_utils.py:49-59 | the loop over the wide escapes found in the input computes `Py2Compatible` |
| UnicodeUtils.Py2OfPy3Escape | keynote_parser/unicode_utils.py:49-59 | the `\U` form of any astral character becomes its surrogate-pair form |
| AppVersion.ParseInt | numbers_parser/macos_app_version.py:4 | one piece reads as a number exactly when it is a non-empty string of digits, and then it is the number's decimal spelling (up to leading zeros) |
| AppVersion.ParseParts | numbers_parser/macos_app_version.py:4 | the list comprehension succeeds exactly when every piece is a number, keeps one number per piece in order, and otherwise raises ValueError |
| AppVersion.NewVersion | numbers_parser/macos_app_version.py:2-6 | the constructor keeps the three strings and a non-empty tuple of the dotted pieces' numbers; a piece that is not a number raises ValueError |
| AppVersion.ComparatorAppend | numbers_parser/macos_app_version.py:37-44 | `short_version_comparator` reads the tuple as decimal places: one more number multiplies the sum of the rest plus it by ten |
| AppVersion.ComparatorOrdersDigits | numbers_parser/macos_app_version.py:37-44 | for equal-length tuples of single digits, the comparator orders them lexicographically |
| AppVersion.Less | numbers_parser/macos_app_version.py:11-18 | `<` is a TypeError for a non-version operand, otherwise true exactly when the comparator, the bundle version or the build version is smaller |
| AppVersion.LessEq | numbers_parser/macos_app_version.py:20-27 | `<=` is the same disjunction with `<=` and the same TypeError |
| AppVersion.LessImpliesLessEq | numbers_parser/macos_app_version.py:11-27 | `<` implies `<=`, no version is below itself, and every version is at most itself |
| AppVersion.LessNotAntisymmetric | numbers_parser/macos_app_version.py:11-18 | two different versions can each be `<` the other, because the comparison is a disjunction |
| AppVersion.Major | numbers_parser/macos_app_version.py:29-31 | `major` is the first number |
| AppVersion.Minor | numbers_parser/macos_app_version.py:33-35 | `minor` is the second number, an IndexError when there is only one |
| AppVersion.Str | numbers_parser/macos_app_version.py:8-9 | `__str__` is "short (bundle, build)", five characters longer than the three strings |
| AppVersion.Example | numbers_parser/macos_app_version.py:1-44 | "10.3.9" reads as [10, 3, 9] with major 10, minor 3 and comparator 10390 |
| AppVersion.NotANumber | numbers_parser/macos_app_version.py:4 | "10.x" raises ValueError |

## Left out

- AppVersion.ParseInt: accepts plain ASCII digit strings only; Python's `int` also takes surrounding whitespace, a sign, underscores and other Unicode digits.
- UnicodeUtils: `fix_unicode` only dispatches on the running interpreter's major version; the two conversions it chooses between are modelled.
- LegacyContainers: `ItemsList.__len__` and `ObjectStore.__len__` are the lengths of the item list and object map and are not separate members; `find_objects` imports a class by name at run time.
- Containers: `update_object_file_store` only hands each object to `copy_object_to_iwa_file` (modelled in `Iwa`); the reader callbacks' zip I/O is replaced by the list of files and objects the reader reports.
- KeynoteCodec: the framing, `_decompress_all`, `header_to_dict` and segment `to_buffer` of keynote_parser/codec.py are the same code as src/numbers_parser/iwafile.py and are modelled once in module `Iwa`; `to_buffer(from_buffer(x)) == x` for the sample files depends on Snappy reproducing the files' own compressed bytes and is not modelled (the converse round trip, `Iwa.ChunkRoundTrip`, is).
- A1Notation: src/numbers_parser/xrefs.py:605-754 holds the same `xl_*` functions as src/numbers_parser/xref_utils.py, and they are modelled once.
- A1Notation.MatchA1: the pattern's `\d` is read as the ASCII digits. Python's `re` also matches other Unicode decimal digits, and `int` would then read them. The model rejects such a row number.
- A1Notation.ColToName: `int((col - 1) / 26)` goes through a float. The model divides exactly, so columns above 2**53, where the float quotient rounds, are not modelled.
- UnpackNumbers.AllowedVersion: the `\d` of the version pattern is read as the ASCII digits, as in `A1Notation.MatchA1`.
- Csv2Numbers.KeyOf: `str.isnumeric` is modelled for the ASCII digits only. Other Unicode numerals stay names, and `int` is never asked to read them.
- Text.Lower: lowers the ASCII letters only, where Python's `str.lower` also lowers other scripts. This is exact for the roman-numeral, border and alignment keywords, which are compared against fixed ASCII names. It is not exact for user data: sheet and table names and CSV lookup keys are compared with it, so names that differ only in non-ASCII case are not matched (see the lines below).
- Containers.HasName: non-ASCII case folding is not modelled. `__contains__` lower-cases with `str.lower`, so "Übersicht" is found among items named "übersicht"; here it is not.
- Containers.ItemsList.Has: non-ASCII case folding is not modelled, as for `Containers.HasName`.
- Csv2Numbers.Best: non-ASCII case folding is not modelled. LOOKUP tests `k.lower() in v.lower()`, so the key "CAFÉ" matches the cell "café"; here the candidates are filtered with the ASCII-only `Text.Lower` and it does not.
- Csv2Numbers.BestIsLongest: "ignoring case" is proved for ASCII case only; a key that matches only under non-ASCII case folding is reported as no match.
- Csv2Numbers.LookedUp: non-ASCII case folding is not modelled, so a cell whose key matches only under `str.lower`'s non-ASCII folding gets "" where the source fills the looked-up value.
- Bullets.Chr: the surrogate code points 0xD800-0xDFFF, which Python's `chr` accepts, are errors here, because a Dafny `char` cannot hold them.
- Strokes: `add_stroke` also visits the halves it splits off and appends during its loop. The model loops over the original runs only. For lengths of 0 or more, `Strokes.SplitTailUntouched` proves that those halves are left alone, so nothing is lost.
- Strokes.Sidecar.AddStroke: negative lengths are not modelled. `set_cell_border` checks only that the length is an `int` (src/numbers_parser/document.py:1316), so a negative length reaches `add_stroke`. When it ends inside a run, the split-off half is split off again each time the loop reaches it (`Strokes.NegativeLengthResplits`, `Strokes.NegativeLengthExample`), and the source never returns. The model's loop over the original runs returns a painted layer instead.
- Strokes.Sidecar.AddStroke: the side is one of the four named sides. The source treats any other string as the left side.
- Tokenizer: `parse_whitespace` is not modelled, because the source's dispatcher does not call it (its entry is commented out), so a space joins the pending token like any other character.
- TableGrid.Table.AddRow: the `default` argument is left out. With it, `add_row` also writes the value into every new cell through `Table.write`, which is not part of this model. The row count is a `nat`, so negative counts are not modelled.
- TableGrid.Table.AddColumn: the same holds for the `default` argument and for negative counts.
- TableGrid.Table.DeleteRow: the count is a `nat`, so negative counts are not modelled.
- TableGrid.Table.DeleteColumn: the count is a `nat`, so negative counts are not modelled.
- Merges.MergeCells.Get: `Table.write` (src/numbers_parser/document.py:984-987) also reads the register and so adds a key to its order. `Table.write` is not part of this model.
- DataLists: `value_key` (the `repr` of a protobuf message, used as the dictionary key of stored values) is replaced by the value itself, which the model compares by equality.
- DataLists.DataLists.AddTable: the class runs the corrected key scan, `ScanEntries`. The code as written is `ScanAsWritten`, listed under Findings.
- Containers.ItemsList.Get: the class runs the corrected index, `Index`. The code as written is `IndexAsWritten`, listed under Findings.
- TableGrid.Table.MergeCells: the class runs the corrected merge, `MergeRect`. The code as written is `MergeRectAsWritten`, listed under Findings.
- Decimal128.Encode: `_pack_decimal128` computes the exponent with a float `log10` and scales through floats. The model encodes an exact decimal, so float rounding is not modelled.
- FormulaArchives.NumberArchive: `decimal_low` is a float product, for example `1.15 * 100`, which is 114.99999999999999 and is then truncated. The model computes the exact product.
- FormulaArchives.NumberArchive: whether `float(value)` is integral is passed in as `integral`, because `float` parsing is not modelled.
- FormulaArchives.CellReference: only the CELL case of `range_archive` is modelled, as the evidently intended behaviour. As written, `range_archive` reads `range_parts["range_type"]` (src/numbers_parser/formula.py:345), a key that `parse_numbers_range` never returns (src/numbers_parser/tokenizer.py:73-83), so every range reference raises KeyError; `RangeType`, imported at src/numbers_parser/formula.py:15, is not defined in src/numbers_parser/tokenizer.py. That KeyError is not modelled.
- FormulaArchives.CellReferenceOfName: builds on `CellReference`, so the same KeyError of the code as written is not modelled.
- BaseFormat.TwosComplement: `math.log2` of the value is taken exactly, as `CeilLog2`. Its float rounding near large powers of two is not modelled.
- FormatOptions.AutoUnits: computed on exact reals. The float rounding in the source's comparisons and floors is not modelled.
- Formula.Renderer.LeafOp: a number node's text is taken from `numberText`, which stands for `number_to_str` of the stored float. A date node's text is taken from `calendarDate`, the day that its seconds fall on; the seconds arithmetic and the calendar are not modelled.
- Formula.Renderer: a warning is recorded by its kind. The message text of `warn` is not kept.
- Csv2Numbers.Converter.TransformColumns: when a row raises during a transform, the source has already rewritten the rows before it. The model keeps the table as it stood before that transform.
- Csv2Numbers.NewConverter: when a date cell fails to parse, the source has already coerced the rows before it. The model reports the error without a partly coerced table. The date parser and `float` are parameters.
- Csv2Numbers: `NegTransformer` and `PosTransformer` compare and take `abs` of floats. `parse_column_transforms` is argument parsing with `csv.reader`. Neither is modelled. The CSV splitting of `parse_columns` and `parse_column_renames` is replaced by the list of fields it yields.
- RefText.RangeText: the header names of the target table are passed in. The source's lookup of the table in `row_ranges`/`col_ranges` can raise KeyError for an unknown table, and that lookup is not modelled.
- Replacement: `should_replace` and `perform_on` work on protobuf objects through `hasattr`. The model works on the JSON form of the message.
- Replacement: the source edits the message in place, so aliased sub-objects see every change. The model returns a new value.
- Replacement: `parse_json` reads a file and `__repr__` only formats the rule. Neither is modelled.
- Containers.GetItem: runs the corrected index, `Index`, as `ItemsList.Get` does. The code as written wraps a negative key twice; that is `IndexAsWritten`, listed under Findings.
- CellCodec.ToBuffer: gives the corrected buffer, `Buffer`, in which the cell style id is written under its own flag. The code as written writes the rich id again under flag 0x10; that is `BufferAsWritten`, listed under Findings.
- UnicodeUtils.ToPy3Compatible: rewrites only a true surrogate pair, through `FromSurrogatePairStrict`. The code as written rewrites any positive pair of escapes; that is `FromSurrogatePair`, listed under Findings with `GermanExampleAsWritten`.
- CellFormat.DecodeDateFormat: a letter is an ASCII letter (`IsAlpha`). Python's `str.isalpha` also takes the letters of other scripts, so a format holding "é" outside quotes raises UnsupportedError in the source and is copied unchanged here.
- CellFormat.AlphaRun: counts ASCII letters only, for the same reason as `DecodeDateFormat`.
- CellFormat.DateScanUnquoted: states the scan with the ASCII `IsAlpha`, so the same non-ASCII letters are outside it.
- CellFormat.DateScanPending: the same as `DateScanUnquoted`.
- NumbersRange.MatchCell: the row pattern's `\d` is read as the ASCII digits, as in `A1Notation.MatchA1`. Python's `re` also matches other Unicode decimal digits, and `int` reads them; the model does not match such a row.
- NumbersRange.MatchBody: the same ASCII reading of `\d` as `MatchCell`.
- NumbersRange.ParseNumbersRangeAsWritten: the same ASCII reading of `\d` as `MatchCell`.
- NumbersRange.ParseNumbersRange: the same ASCII reading of `\d` as `MatchCell`.
- FormulaArchives.Fields: the fraction must be ASCII digits. A literal with a lowercase exponent, such as "1.25e1", is a number to `float`, is not split at "E" (src/numbers_parser/formula.py:476), and goes on with the fraction "25e1" through `float(significand)`; that float arithmetic is not modelled, and the model gives ValueError.
- FormulaArchives.NumberArchiveAsWritten: a lowercase exponent gives ValueError, for the reason given under `Fields`.
- FormulaArchives.NumberArchive: a lowercase exponent gives ValueError, for the reason given under `Fields`.
- UnpackNumbers.IntOf: reads plain ASCII digit strings with an optional sign. Python's `int` also accepts surrounding whitespace, underscores between digits and other Unicode digits; the model gives ValueError for those.
- Csv2Numbers.Converter.DeleteColumns: on the ValueError path (a column named twice) and the KeyError path (a row without the column), the source has already deleted some header entries and row fields before it raises. The contract does not state the table on those paths.
- Csv2Numbers.Value: `Number` holds an exact real, so a field that `float` reads as nan or inf cannot be represented.
- NameScopes.ScopedNameRefCache.CalculateNamedRanges: the document and sheet names are kept as sets. The `ScopedNameRef` each name maps to (src/numbers_parser/xrefs.py:336-340) and the `table_names` map (src/numbers_parser/xrefs.py:342-348) are not kept.
- TableGrid.Table.AddRow: each new cell is built through `_empty_cell` and `_from_storage`, which read the merge register at the new cell's coordinates (src/numbers_parser/cell.py:934-935) and so add those keys to its order. Those reads are not recorded, so after `add_row` the order of later merges can differ from the source's.
- TableGrid.Table.AddColumn: the same register reads are not recorded as for `AddRow`.
- LegacyDocument.ReadRowInfo: cuts the cells with `ExtractCorrected`. The code as written, `ExtractAsWritten`, cuts each cell one byte short and is listed under Findings; with it, a double that ends the buffer would fail to unpack.
- LegacyDocument.RowData: uses `ExtractCorrected`, as `ReadRowInfo` does.
- LegacyDocument.DataOf: built on `RowData`, so it reads the corrected cuts.
- LegacyDocument.Table.Data: built on `ReadRowInfo`, so it reads the corrected cuts.
- FormulaOwners.DependencyTracker.AddFormulaOwner: stores the corrected ranges, `TableRanges`, whose bottom row comes from the number of rows. The code as written, `TableRangesAsWritten`, takes it from the number of columns and is listed under Findings.
- Replacement.Restyle: splits the text at the character-style indexes with the UTF-16 `CharStyle`. The code as written, `CharStyleAsWritten`, slices by code points and is listed under Findings.
- Replacement.PerformOn: restyles through `Restyle`, so it uses the UTF-16 `CharStyle`.
- Replacement.CorrectCharstyle: uses the UTF-16 `CharStyle`, as `Restyle` does.
- Replacement.CharstyleEntries: states the UTF-16 `CharStyle` result.
- Replacement.RestyleEntries: states the UTF-16 `CharStyle` result.
- FormatOptions.NewFormatting: the RuntimeWarning raised when `use_accounting_style` is set with a `negative_style` other than MINUS (src/numbers_parser/cell.py:2146-2151) is not modelled. It does not change the result, and `Formatting` here does not carry those two fields.
- KeynoteCodec.Json: `JFloat` holds an exact real, so the infinite and nan inputs of the float clamp cannot be expressed.
- Uuid.NumbersUuid: a string is accepted only when exactly 32 ASCII hexadecimal digits remain after "urn:", "uuid:", braces and hyphens are removed. `UUID(hex=...)` checks only that 32 characters remain and then calls `int(hex, 16)`, which also accepts a "0x" prefix, a sign, underscores between digits, surrounding whitespace and non-ASCII digits; those strings give ValueError here. The values of a dictionary are `nat`s, so a negative `int(...)` value, which `UUID(int=...)` rejects with ValueError, cannot be expressed.
- Decimal128.Unpack: the decoded value is kept exact as `Decimal`. `_unpack_decimal128` returns `float(mantissa * 10**exp)`, which rounds every value that a binary float cannot hold and raises OverflowError when the value exceeds the float range (for example bytes 0x01, thirteen zero bytes, 0xAA, 0x32 give exponent 309). Neither the rounding nor the OverflowError is modelled.
- Decimal128.UnpackDecimal128: the same holds for `unpack_decimal128`, which also returns `float(mantissa * 10**exp)`.
- UnpackNumbers: `prettify_cell_storage` and `store_file` (JSON, hex and base64 output to files) are not modelled.

## Findings

| source | as written | input that shows it | evidently intended | confidence | as-written member | corrected member |
|---|---|---|---|---|---|---|
| keynote_parser/unicode_utils.py:20-24 | `from_surrogate_pair` returns any positive combination of the two values, whether or not they are surrogates, and `to_py3_compatible` then rewrites the pair | the escapes `\uFFFC\u201C` of the German test text give 10499100, and the text becomes `\U00a0341c` | only a high surrogate (0xD800-0xDBFF) followed by a low one (0xDC00-0xDFFF) is a pair; any other text is left as it is | not executed | UnicodeUtils.GermanExampleAsWritten | UnicodeUtils.FromSurrogatePairStrict |
| src/numbers_parser/containers.py:13-19 | a negative key has the length added and is then indexed again, so Python's own negative indexing applies a second time | `sheets[-4]` with three sheets returns the last sheet | a key below minus the length raises IndexError | not executed | Containers.IndexAsWrittenWrapsTwice | Containers.Index |
| src/numbers_parser/cell.py:1036-1059 | `_to_buffer` writes a rich-text cell's rich id as the value and again under flag 0x10, where the reader takes it as the cell style | a rich-text cell with rich id 7 and cell style 3 loads back with cell style 7 | the cell style id is written under its own flag and loads back unchanged | not executed | CellCodec.RichTextStyleMisread | CellCodec.RoundTrip |
| numbers_parser/document.py:144-162 | `extract_cell_data` cuts each cell one byte short of the next cell's offset | buffer [1, 2, 3, 4] with offsets 0 and 2 gives cells [1] and [3] | cells [1, 2] and [3, 4], each ending where the next begins | not executed | LegacyDocument.AsWrittenExample | LegacyDocument.ExtractCorrected |
| src/numbers_parser/cell.py:1851-1876 | `_format_base` tests for zero before rounding, so a value that rounds to zero writes no digits at all | 0.25 in base 10 with no minimum width gives "" | "0" | not executed | BaseFormat.FormatBaseEmptyForSmallValues | BaseFormat.FormatBaseMeaning |
| src/numbers_parser/cell.py:484-489 | the `top` setter compares with `self.top._order`, through the getter, which answers None when the top side is merged. The defect is latent: `cell_for_stroke` (src/numbers_parser/model.py:2317-2323) hands a merged cell a top stroke only on the merge's first row, where `_top_merged` is false (src/numbers_parser/cell.py:963), so loading a document never reaches it | setting `top` twice, the second time with a higher order, on a `CellBorder` built with `top_merged` true raises AttributeError | compare with the stored `_top`, so the later, higher-ordered border wins | not executed | Borders.TopSetterAsWrittenRaises | Borders.TopSettersAgree |
| src/numbers_parser/document.py:1249-1252 | `merge_cells` starts both loops one past the anchor's row and column, so the rest of the first row and the first column of a merge are never hidden or referenced | `merge_cells("B2:C2")` leaves C2 untouched | every cell of the range except the anchor is referenced, as a saved and reloaded table shows | not executed | TableGrid.FirstRowMergeExample | TableGrid.Table.MergeRect |
| src/numbers_parser/model.py:1626-1637 | `add_formula_owner` sets the bottom row of the table's ranges from the number of columns | a table of 10 rows and 3 columns has a total range ending at row 2, so row 5 lies outside it | the bottom row is the number of rows minus one | not executed | FormulaOwners.TallTableExample | FormulaOwners.TableRangesCover |
| src/numbers_parser/model.py:145-151 | `add_table` indexes an entry only when its key is above every earlier key | keys [2, 1]: key 1 is never indexed, so looking it up raises KeyError | every entry is indexed by its key | not executed | DataLists.MissedKeyExample | DataLists.ScanEntriesSound |
| src/numbers_parser/tokenizer.py:66-78 | the converters call `int` on absent row and column groups, so a named range raises ValueError | "cats" | a named range is returned with its name and no cell indices | not executed | NumbersRange.NamedRangeExample | NumbersRange.ParseNumbersRange |
| src/numbers_parser/formula.py:576-578 | a separator pops at most one operator off the stack | "SUM(a+b×c,d)" gives a b c × d + SUM/1 | a b c × + d SUM/2: every operator back to the call is popped | not executed | Rpn.SeparatorPopsOneOperator | Rpn.RpnCorrect |
| src/numbers_parser/formula.py:553-558 | an argument that is itself a function call is not counted as an argument of the call around it | "SUM(a,F())" gives SUM one argument | a F/0 SUM/2 | not executed | Rpn.CallArgumentNotCounted | Rpn.RpnCorrect |
| src/numbers_parser/formula.py:583-588 | a closing parenthesis pops the function below its own opener as well | "SUM((a),b)" gives a SUM/0 b | a b SUM/2 | not executed | Rpn.ParenthesisClosesCall | Rpn.RpnCorrect |
| src/numbers_parser/formula.py:21 | `OPERATOR_PRECEDENCE` has no comparison operators, so a comparison that meets an operator on the stack raises KeyError | "a+b>c" | a b + c >, with comparisons binding below every other operator | not executed | Rpn.ComparisonAfterOperatorFails | Rpn.RpnCorrect |
| src/numbers_parser/formula.py:476-478 | `number_archive` takes `significand.split(".")[1]`, which does not exist for a significand without a point | "1E-1" raises IndexError | decimal_low 1 with exponent -1 | not executed | FormulaArchives.OneTenthAsWritten | FormulaArchives.NumberArchive |
| keynote_parser/replacement.py:91-104 | `correct_charstyle_replacement` slices the text at the style entries' indexes as code points, but Keynote counts them in UTF-16 code units | an emoji, "a" and "b", styled at units 0, 2 and 3, with "a" replaced by "xyz": the replaced "a" takes the first style and the new indexes are 0, 4, 5 | slice and count in UTF-16 code units, giving indexes 0, 2, 5 | not executed | Replacement.EmojiRunsAsWritten | Replacement.EmojiRunsCorrected |
