/** The STRG container (strg.py:137-228): a 16-byte header, one 12-byte entry
    per language, the name table, then one string table per language. */
module Strg {
  import opened Results
  import opened Binary
  import opened Sequences
  import opened StrgRecords
  import opened StrgTables

  datatype STRG = STRG(
    magicNumber: int,
    version: int,
    languageCount: int,
    stringCount: int,
    languageTables: seq<LanguageTable>,
    nameTable: NameTable,
    stringTables: seq<StringTable>)
  {
    /** `struct.pack` accepts every field that `packed()` writes. */
    predicate Packable()
    {
      && IsU32(magicNumber) && IsU32(version) && IsU32(languageCount) && IsU32(stringCount)
      && (forall k :: 0 <= k < |languageTables| ==> languageTables[k].Packable())
      && nameTable.Packable()
      && (forall k :: 0 <= k < |stringTables| ==> stringTables[k].Packable())
    }

    /** `packed_content_size`: header, language entries, name table and
        string tables. */
    function PackedContentSize(): nat
    {
      16 + 12 * |languageTables| + nameTable.PackedSize() + StringTablesSize(stringTables)
    }

    /** `packed_padding_size`. */
    function PackedPaddingSize(): (p: nat)
      ensures p < 32 && (PackedContentSize() + p) % 32 == 0
    {
      PaddingTo32(PackedContentSize())
    }

    /** `packed_size`. */
    function PackedSize(): nat
    {
      PackedContentSize() + PackedPaddingSize()
    }

    /** `packed()`: the stored header fields, the language entries, the name
        table and the string tables, then 0xFF up to a multiple of 32 bytes;
        `struct.error` when a field does not fit. */
    function Packed(): (r: Result<Bytes>)
      ensures r.Ok? <==> Packable()
      ensures r.Err? ==> r.error == StructError
      ensures r.Ok? ==> |r.value| == PackedSize()
    {
      if !Packable() then Err(StructError)
      else Ok(PackedContent() + Fill(0xFF, PackedPaddingSize()))
    }

    /** Everything `packed()` writes before the padding. */
    function PackedContent(): (r: Bytes)
      requires Packable()
      ensures |r| == PackedContentSize()
    {
      HeaderBytes() + PackLanguageTables(languageTables) + nameTable.Packed() + PackStringTables(stringTables)
    }

    /** The four stored header words. */
    function HeaderBytes(): (r: Bytes)
      requires Packable()
      ensures |r| == 16
      ensures r[0..4] == PackU32(magicNumber) && r[4..8] == PackU32(version)
      ensures r[8..12] == PackU32(languageCount) && r[12..16] == PackU32(stringCount)
    {
      PackU32(magicNumber) + PackU32(version) + PackU32(languageCount) + PackU32(stringCount)
    }

    /** What `from_packed` computes: the header, `language_count` language
        entries after it, the name table after those, and for each language
        entry the `strings_size` bytes that lie `strings_offset` bytes past
        the end of the name table, decoded as a table of `string_count`
        strings. */
    static function Decode(packed: Bytes): (r: Result<STRG>)
    {
      if |packed| < 16 then Err(StructError)
      else
        var languageCount := UnpackU32(packed[8..12]);
        if |packed| < 16 + 12 * languageCount then Err(StructError)
        else
          DecodeTables(packed, UnpackU32(packed[0..4]), UnpackU32(packed[4..8]), languageCount,
                       UnpackU32(packed[12..16]), LanguageTablesAt(packed, languageCount))
    }

    /** The part of `Decode` after the language entries: the name table that
        follows them, then the string tables. */
    static function DecodeTables(packed: Bytes, magicNumber: int, version: int, languageCount: nat, stringCount: nat,
                                 languageTables: seq<LanguageTable>): (r: Result<STRG>)
    {
      var nameTable :- NameTable.Decode(Drop(packed, LanguageTablesEnd(languageCount)));
      var stringTables :- StringTablesAt(packed, StringTablesStart(languageCount, nameTable), languageTables, stringCount);
      Ok(STRG(magicNumber, version, languageCount, stringCount, languageTables, nameTable, stringTables))
    }

    /** `from_packed` (strg.py:157-181), with its two loops. */
    static method FromPacked(packed: Bytes) returns (r: Result<STRG>)
      ensures r == Decode(packed)
    {
      if |packed| < 16 {
        return Err(StructError);
      }
      var magicNumber := UnpackU32(packed[0..4]);
      var version := UnpackU32(packed[4..8]);
      var languageCount := UnpackU32(packed[8..12]);
      var stringCount := UnpackU32(packed[12..16]);
      var languageTables :- ReadLanguageTables(packed, languageCount);
      r := ReadTables(packed, magicNumber, version, languageCount, stringCount, languageTables);
    }

    /** strg.py:167-181: the name table after the language entries, then the
        loop over the string tables. */
    static method ReadTables(packed: Bytes, magicNumber: int, version: int, languageCount: nat, stringCount: nat,
                             languageTables: seq<LanguageTable>) returns (r: Result<STRG>)
      ensures r == DecodeTables(packed, magicNumber, version, languageCount, stringCount, languageTables)
    {
      var offset := 16 + 12 * languageCount;
      var nameTable :- NameTable.FromPacked(Drop(packed, offset));
      var stringTablesOffset := offset + 8 + nameTable.size;
      assert stringTablesOffset == StringTablesStart(languageCount, nameTable);
      var stringTables :- ReadStringTables(packed, stringTablesOffset, languageTables, stringCount);
      r := Ok(STRG(magicNumber, version, languageCount, stringCount, languageTables, nameTable, stringTables));
    }

    /** The `_language_ID_to_index_map` that `__post_init__` builds. */
    function LanguageIndices(): map<Bytes, nat>
    {
      LanguageIndexMap(languageTables)
    }

    /** `get_string_table_by_language_ID`: the string table at the index of
        the last language entry with that tag. */
    function GetStringTableByLanguageId(languageId: Bytes): (r: Result<StringTable>)
      ensures r == Err(KeyNotFound) <==> forall k :: 0 <= k < |languageTables| ==> languageTables[k].languageId != languageId
      ensures r.Ok? ==> exists k :: 0 <= k < |languageTables| && k < |stringTables|
                          && languageTables[k].languageId == languageId && r.value == stringTables[k]
                          && forall j :: k < j < |languageTables| ==> languageTables[j].languageId != languageId
      ensures |languageTables| <= |stringTables| ==> r.Ok? || r == Err(KeyNotFound)
    {
      var m := LanguageIndices();
      LanguageIndexMapLast(languageTables, languageId);
      if languageId !in m then Err(KeyNotFound)
      else if m[languageId] < |stringTables| then Ok(stringTables[m[languageId]])
      else Err(IndexOutOfRange)
    }

    /** What `with_string_table_replaced` computes, as written: KeyError for
        an unknown tag, `struct.error` when the new table cannot be packed
        (its `packed_size` is taken), otherwise `TableReplacedAt` at the
        tag's index. */
    function StringTableReplaced(languageId: Bytes, newTable: StringTable): (r: Result<STRG>)
      ensures r.Err? <==> languageId !in LanguageIndices() || !newTable.Packable()
      ensures r.Err? ==> r.error == (if languageId !in LanguageIndices() then KeyNotFound else StructError)
    {
      var m := LanguageIndices();
      if languageId !in m then Err(KeyNotFound)
      else if !newTable.Packable() then Err(StructError)
      else Ok(TableReplacedAt(m[languageId], newTable))
    }

    /** The replacement at `index`: that language entry keeps its offset and
        takes the new table's packed size, every later entry's offset becomes
        its own size plus the change in size, and the string table at
        `index` is replaced. */
    function TableReplacedAt(index: nat, newTable: StringTable): STRG
      requires index < |languageTables|
    {
      var oldEntry := languageTables[index];
      var newEntry := oldEntry.(stringsSize := newTable.PackedSize());
      var sizeDiff := newEntry.stringsSize - oldEntry.stringsSize;
      this.(languageTables := languageTables[..index] + [newEntry] + OffsetsFromSizes(languageTables[index + 1..], sizeDiff),
            stringTables := Take(stringTables, index) + [newTable] + Skip(stringTables, index + 1))
    }

    /** `with_string_table_replaced` (strg.py:212-228). */
    method WithStringTableReplaced(languageId: Bytes, newTable: StringTable) returns (r: Result<STRG>)
      ensures r == StringTableReplaced(languageId, newTable)
    {
      var m := LanguageIdToIndexMap(languageTables);
      if languageId !in m {
        return Err(KeyNotFound);
      }
      var tableIndex := m[languageId];
      if !newTable.Packable() {
        return Err(StructError);
      }
      var replaced := ReplaceTableAt(tableIndex, newTable);
      r := Ok(replaced);
    }

    /** strg.py:214-228 once the index is known, with the loop over the
        later language entries. */
    method ReplaceTableAt(tableIndex: nat, newTable: StringTable) returns (r: STRG)
      requires tableIndex < |languageTables| && newTable.Packable()
      ensures r == TableReplacedAt(tableIndex, newTable)
    {
      var oldEntry := languageTables[tableIndex];
      var newEntry := oldEntry.(stringsSize := newTable.PackedSize());
      var sizeDiff := newEntry.stringsSize - oldEntry.stringsSize;
      var newLanguageTables := languageTables[..tableIndex] + [newEntry];
      var later := languageTables[tableIndex + 1..];
      for k := 0 to |later|
        invariant newLanguageTables == languageTables[..tableIndex] + [newEntry] + OffsetsFromSizes(later[..k], sizeDiff)
      {
        newLanguageTables := newLanguageTables + [later[k].(stringsOffset := later[k].stringsSize + sizeDiff)];
      }
      assert later[..|later|] == later;
      r := this.(languageTables := newLanguageTables,
                 stringTables := Take(stringTables, tableIndex) + [newTable] + Skip(stringTables, tableIndex + 1));
    }

    /** The replacement the offsets evidently call for: later entries move by
        the change in size, so the string tables stay back to back. */
    function StringTableReplacedFixed(languageId: Bytes, newTable: StringTable): (r: Result<STRG>)
      ensures r.Err? <==> languageId !in LanguageIndices() || !newTable.Packable()
    {
      var m := LanguageIndices();
      if languageId !in m then Err(KeyNotFound)
      else if !newTable.Packable() then Err(StructError)
      else Ok(TableReplacedAtFixed(m[languageId], newTable))
    }

    function TableReplacedAtFixed(index: nat, newTable: StringTable): STRG
      requires index < |languageTables|
    {
      var oldEntry := languageTables[index];
      var newEntry := oldEntry.(stringsSize := newTable.PackedSize());
      var sizeDiff := newEntry.stringsSize - oldEntry.stringsSize;
      this.(languageTables := languageTables[..index] + [newEntry] + OffsetsShifted(languageTables[index + 1..], sizeDiff),
            stringTables := Take(stringTables, index) + [newTable] + Skip(stringTables, index + 1))
    }

    /** The language entries describe where the string tables are packed:
        one entry per table, the first at offset 0, each entry's size the
        table's packed size and each table right after the previous one. */
    predicate LaidOut()
    {
      && |languageTables| == |stringTables|
      && (|languageTables| > 0 ==> languageTables[0].stringsOffset == 0)
      && (forall k :: 0 <= k < |languageTables| ==> languageTables[k].stringsSize == stringTables[k].PackedSize())
      && (forall k :: 0 < k < |languageTables| ==>
            languageTables[k].stringsOffset == languageTables[k - 1].stringsOffset + languageTables[k - 1].stringsSize)
    }
  }

  /** Byte at which the name table begins: after the 16-byte header and
      the 12-byte language entries. */
  function LanguageTablesEnd(languageCount: nat): nat
  {
    16 + 12 * languageCount
  }

  /** Byte at which the string tables begin: after the header, the language
      entries, the name table's 8-byte header and its `size` body bytes. */
  function StringTablesStart(languageCount: nat, nameTable: NameTable): int
  {
    LanguageTablesEnd(languageCount) + 8 + nameTable.size
  }

  // ---------------------------------------------------------------------
  // Language entries

  /** The first `n` 12-byte language entries after the 16-byte header. */
  function LanguageTablesAt(packed: Bytes, n: nat): (r: seq<LanguageTable>)
    requires 16 + 12 * n <= |packed|
    ensures |r| == n
    ensures forall k :: 0 <= k < n ==> r[k].Packable() && |r[k].languageId| == 4
    ensures forall k :: 0 <= k < n ==> r[k].Packed() == packed[16 + 12 * k..28 + 12 * k]
  {
    seq(n, k requires 0 <= k < n => LanguageTableAt(packed, k))
  }

  /** Language entry `k`, which re-encodes to the bytes it was read from. */
  function LanguageTableAt(packed: Bytes, k: nat): (r: LanguageTable)
    requires 28 + 12 * k <= |packed|
    ensures r.Packable() && |r.languageId| == 4
    ensures r.Packed() == packed[16 + 12 * k..28 + 12 * k]
  {
    var slot := packed[16 + 12 * k..28 + 12 * k];
    LanguageTableBytesRoundTrip(slot);
    LanguageTable.FromPacked(slot).value
  }

  /** The loop of strg.py:161-165: `count` 12-byte entries after the header. */
  method ReadLanguageTables(packed: Bytes, count: nat) returns (r: Result<seq<LanguageTable>>)
    requires 16 <= |packed|
    ensures r.Err? <==> |packed| < 16 + 12 * count
    ensures r.Err? ==> r.error == StructError
    ensures r.Ok? ==> 16 + 12 * count <= |packed| && r.value == LanguageTablesAt(packed, count)
  {
    var offset := 16;
    var languageTables: seq<LanguageTable> := [];
    for i := 0 to count
      invariant offset == 16 + 12 * i <= |packed|
      invariant |languageTables| == i
      invariant forall k :: 0 <= k < i ==> languageTables[k] == LanguageTableAt(packed, k)
    {
      var entry := LanguageTable.FromPacked(Slice(packed, offset, offset + 12));
      if entry.Err? {
        return Err(entry.error);
      }
      languageTables := languageTables + [entry.value];
      offset := offset + 12;
    }
    r := Ok(languageTables);
  }

  function PackLanguageTables(ts: seq<LanguageTable>): (r: Bytes)
    requires forall k :: 0 <= k < |ts| ==> ts[k].Packable()
    ensures |r| == 12 * |ts|
  {
    if ts == [] then [] else ts[0].Packed() + PackLanguageTables(ts[1..])
  }

  /** `__post_init__`'s map from language tag to index, filled in index
      order, so a later entry with the same tag overwrites an earlier one. */
  function LanguageIndexMap(ts: seq<LanguageTable>): (m: map<Bytes, nat>)
    ensures forall id :: id in m ==> m[id] < |ts| && ts[m[id]].languageId == id
    ensures forall k :: 0 <= k < |ts| ==> ts[k].languageId in m
  {
    if ts == [] then map[]
    else LanguageIndexMap(ts[..|ts| - 1])[ts[|ts| - 1].languageId := |ts| - 1]
  }

  /** The loop of strg.py:152-155. */
  method LanguageIdToIndexMap(ts: seq<LanguageTable>) returns (m: map<Bytes, nat>)
    ensures m == LanguageIndexMap(ts)
  {
    m := map[];
    for index := 0 to |ts|
      invariant m == LanguageIndexMap(ts[..index])
    {
      assert ts[..index + 1][..index] == ts[..index];
      m := m[ts[index].languageId := index];
    }
    assert ts[..|ts|] == ts;
  }

  /** The map sends a tag to the last entry carrying it; a tag no entry
      carries is not in the map. */
  lemma {:induction false} LanguageIndexMapLast(ts: seq<LanguageTable>, id: Bytes)
    ensures id !in LanguageIndexMap(ts) <==> forall k :: 0 <= k < |ts| ==> ts[k].languageId != id
    ensures id in LanguageIndexMap(ts) ==> forall j :: LanguageIndexMap(ts)[id] < j < |ts| ==> ts[j].languageId != id
  {
    if ts != [] {
      var init := ts[..|ts| - 1];
      LanguageIndexMapLast(init, id);
      if ts[|ts| - 1].languageId != id && id in LanguageIndexMap(ts) {
        forall j | LanguageIndexMap(ts)[id] < j < |ts| ensures ts[j].languageId != id {
          if j < |ts| - 1 {
            assert ts[j] == init[j];
          }
        }
      }
    }
  }

  /** Later entries as `with_string_table_replaced` writes them: each offset
      becomes the entry's own size plus `sizeDiff`. */
  function OffsetsFromSizes(ts: seq<LanguageTable>, sizeDiff: int): (r: seq<LanguageTable>)
    ensures |r| == |ts|
    ensures forall k :: 0 <= k < |ts| ==> r[k] == ts[k].(stringsOffset := ts[k].stringsSize + sizeDiff)
  {
    seq(|ts|, k requires 0 <= k < |ts| => ts[k].(stringsOffset := ts[k].stringsSize + sizeDiff))
  }

  /** Later entries moved by `sizeDiff`. */
  function OffsetsShifted(ts: seq<LanguageTable>, sizeDiff: int): (r: seq<LanguageTable>)
    ensures |r| == |ts|
    ensures forall k :: 0 <= k < |ts| ==> r[k] == ts[k].(stringsOffset := ts[k].stringsOffset + sizeDiff)
  {
    seq(|ts|, k requires 0 <= k < |ts| => ts[k].(stringsOffset := ts[k].stringsOffset + sizeDiff))
  }

  // ---------------------------------------------------------------------
  // String tables

  function StringTablesSize(ts: seq<StringTable>): nat
  {
    if ts == [] then 0 else ts[0].PackedSize() + StringTablesSize(ts[1..])
  }

  function PackStringTables(ts: seq<StringTable>): (r: Bytes)
    requires forall k :: 0 <= k < |ts| ==> ts[k].Packable()
    ensures |r| == StringTablesSize(ts)
  {
    if ts == [] then [] else ts[0].Packed() + PackStringTables(ts[1..])
  }

  /** The bytes string table `lt` occupies: `strings_size` bytes starting
      `strings_offset` bytes past `start`. */
  function StringTableBytes(packed: Bytes, start: int, lt: LanguageTable): Bytes
  {
    SignedSlice(packed, start + lt.stringsOffset, start + lt.stringsOffset + lt.stringsSize)
  }

  /** The string table of every language entry, in order; the first that
      fails to decode decides the error. */
  function StringTablesAt(packed: Bytes, start: int, ts: seq<LanguageTable>, stringCount: nat): (r: Result<seq<StringTable>>)
    ensures r.Ok? ==> |r.value| == |ts|
  {
    if ts == [] then Ok([])
    else
      var t :- StringTable.Decode(StringTableBytes(packed, start, ts[0]), stringCount);
      var rest :- StringTablesAt(packed, start, ts[1..], stringCount);
      Ok([t] + rest)
  }

  /** One turn of the loop over the language entries. */
  lemma StringTablesAtStep(packed: Bytes, start: int, ts: seq<LanguageTable>, stringCount: nat, i: nat)
    requires i < |ts|
    ensures var t := StringTable.Decode(StringTableBytes(packed, start, ts[i]), stringCount);
      && (t.Err? ==> StringTablesAt(packed, start, ts[i..], stringCount) == Err(t.error))
      && (t.Ok? ==> StringTablesAt(packed, start, ts[i..], stringCount)
                      == Prepend([t.value], StringTablesAt(packed, start, ts[i + 1..], stringCount)))
  {
    assert ts[i..][0] == ts[i];
    assert ts[i..][1..] == ts[i + 1..];
  }

  /** The loop of strg.py:168-171. */
  method ReadStringTables(packed: Bytes, start: int, ts: seq<LanguageTable>, stringCount: nat)
    returns (r: Result<seq<StringTable>>)
    ensures r == StringTablesAt(packed, start, ts, stringCount)
  {
    var tables: seq<StringTable> := [];
    assert ts[0..] == ts;
    PrependNothing(StringTablesAt(packed, start, ts, stringCount));
    for i := 0 to |ts|
      invariant StringTablesAt(packed, start, ts, stringCount) == Prepend(tables, StringTablesAt(packed, start, ts[i..], stringCount))
    {
      var t := StringTable.FromPacked(StringTableBytes(packed, start, ts[i]), stringCount);
      StringTablesAtStep(packed, start, ts, stringCount, i);
      if t.Err? {
        return Err(t.error);
      }
      PrependPrepend(tables, [t.value], StringTablesAt(packed, start, ts[i + 1..], stringCount));
      tables := tables + [t.value];
    }
    assert ts[|ts|..] == [];
    assert tables + [] == tables;
    r := Ok(tables);
  }
}

/** What the STRG container's operations promise. */
module StrgFacts {
  import opened Results
  import opened Binary
  import opened Sequences
  import opened StrgRecords
  import opened StrgTables
  import opened StrgTableFacts
  import opened Strg

  // ---------------------------------------------------------------------
  // Packing

  /** `packed_size` is a multiple of 32, less than 32 bytes past the
      content. */
  lemma StrgPackedSize(s: STRG)
    ensures s.PackedSize() % 32 == 0
    ensures s.PackedContentSize() <= s.PackedSize() < s.PackedContentSize() + 32
  {
  }

  /** `packed()` is the content followed by 0xFF padding. */
  lemma StrgPackedPadding(s: STRG)
    requires s.Packable()
    ensures var b := s.Packed().value;
      && s.PackedContentSize() <= |b|
      && b[..s.PackedContentSize()] == s.PackedContent()
      && forall i :: s.PackedContentSize() <= i < |b| ==> b[i] == 0xFF
  {
    PaddedWith(s.PackedContent(), 0xFF, s.PackedPaddingSize());
  }

  /** Language entry `k` is packed into the 12 bytes at 16 + 12k. */
  lemma {:induction false} PackLanguageTablesAt(ts: seq<LanguageTable>, k: nat)
    requires forall j :: 0 <= j < |ts| ==> ts[j].Packable()
    requires k < |ts|
    ensures PackLanguageTables(ts)[12 * k..12 * k + 12] == ts[k].Packed()
  {
    if k > 0 {
      PackLanguageTablesAt(ts[1..], k - 1);
      TailSlot(ts[0].Packed(), PackLanguageTables(ts[1..]), k);
    }
  }

  /** Slot `k` of twelve-byte slots is slot `k - 1` after the first one. */
  lemma TailSlot(head: Bytes, rest: Bytes, k: nat)
    requires |head| == 12 && 0 < k && 12 * k <= |rest|
    ensures (head + rest)[12 * k..12 * k + 12] == rest[12 * (k - 1)..12 * (k - 1) + 12]
  {
    var slot, previous := (head + rest)[12 * k..12 * k + 12], rest[12 * (k - 1)..12 * (k - 1) + 12];
    forall x | 0 <= x < 12 ensures slot[x] == previous[x] {
      assert (head + rest)[12 * k + x] == rest[12 * (k - 1) + x];
    }
  }

  /** `packed()` begins with the header words and the language entries. */
  lemma StrgPackedPrefix(s: STRG)
    requires s.Packable()
    ensures var b := s.Packed().value;
      && 16 + 12 * |s.languageTables| <= |b|
      && b[..16 + 12 * |s.languageTables|] == s.HeaderBytes() + PackLanguageTables(s.languageTables)
  {
    var x := s.HeaderBytes() + PackLanguageTables(s.languageTables);
    assert s.Packed().value == x + s.nameTable.Packed() + PackStringTables(s.stringTables) + Fill(0xFF, s.PackedPaddingSize());
    PrefixOfAppend4(x, s.nameTable.Packed(), PackStringTables(s.stringTables), Fill(0xFF, s.PackedPaddingSize()));
  }

  /** `packed()` starts with the four stored header words. */
  lemma StrgPackedHeader(s: STRG)
    requires s.Packable()
    ensures var b := s.Packed().value;
      && 16 <= |b|
      && b[0..4] == PackU32(s.magicNumber) && b[4..8] == PackU32(s.version)
      && b[8..12] == PackU32(s.languageCount) && b[12..16] == PackU32(s.stringCount)
  {
    var b := s.Packed().value;
    StrgPackedPrefix(s);
    var h := s.HeaderBytes();
    var p := h + PackLanguageTables(s.languageTables);
    SliceOfPrefix(b, p, 0, 4);
    SliceOfPrefix(b, p, 4, 8);
    SliceOfPrefix(b, p, 8, 12);
    SliceOfPrefix(b, p, 12, 16);
    SliceOfAppendLeft(h, PackLanguageTables(s.languageTables), 0, 4);
    SliceOfAppendLeft(h, PackLanguageTables(s.languageTables), 4, 8);
    SliceOfAppendLeft(h, PackLanguageTables(s.languageTables), 8, 12);
    SliceOfAppendLeft(h, PackLanguageTables(s.languageTables), 12, 16);
  }

  /** Every language entry is packed into the 12 bytes at 16 + 12k. */
  lemma StrgPackedLanguageEntries(s: STRG)
    requires s.Packable()
    ensures var b := s.Packed().value;
      && 16 + 12 * |s.languageTables| <= |b|
      && forall k :: 0 <= k < |s.languageTables| ==> b[16 + 12 * k..28 + 12 * k] == s.languageTables[k].Packed()
  {
    StrgPackedPrefix(s);
    forall k | 0 <= k < |s.languageTables|
      ensures s.Packed().value[16 + 12 * k..28 + 12 * k] == s.languageTables[k].Packed()
    {
      StrgPackedLanguageEntry(s, k);
    }
  }

  lemma StrgPackedLanguageEntry(s: STRG, k: nat)
    requires s.Packable() && k < |s.languageTables|
    ensures var b := s.Packed().value;
      28 + 12 * k <= |b| && b[16 + 12 * k..28 + 12 * k] == s.languageTables[k].Packed()
  {
    PackLanguageTablesAt(s.languageTables, k);
    EntrySlot(s.HeaderBytes(), PackLanguageTables(s.languageTables), s.nameTable.Packed(),
              PackStringTables(s.stringTables), Fill(0xFF, s.PackedPaddingSize()), k);
  }

  /** Slot `k` of the language entries, seen through the whole of
      `packed()`. */
  lemma EntrySlot(header: Bytes, entries: Bytes, names: Bytes, strings: Bytes, padding: Bytes, k: nat)
    requires |header| == 16 && 12 * k + 12 <= |entries|
    ensures var b := header + entries + names + strings + padding;
      28 + 12 * k <= |b| && b[16 + 12 * k..28 + 12 * k] == entries[12 * k..12 * k + 12]
  {
    var b := header + entries + names + strings + padding;
    var slot, entry := b[16 + 12 * k..28 + 12 * k], entries[12 * k..12 * k + 12];
    forall x | 0 <= x < 12 ensures slot[x] == entry[x] {
      assert b[16 + 12 * k + x] == entries[12 * k + x];
    }
  }

  /** Reading the header back from `packed()` gives the stored words. */
  lemma StrgHeaderRoundTrip(s: STRG)
    requires s.Packable()
    ensures var b := s.Packed().value;
      && 16 <= |b|
      && UnpackU32(b[0..4]) == s.magicNumber && UnpackU32(b[4..8]) == s.version
      && UnpackU32(b[8..12]) == s.languageCount && UnpackU32(b[12..16]) == s.stringCount
  {
    StrgPackedHeader(s);
  }

  /** Reading the language entries back from `packed()` gives the stored
      ones, when the stored language count is the number of entries and
      every tag has four bytes. */
  lemma StrgLanguageTablesRoundTrip(s: STRG)
    requires s.Packable() && s.languageCount == |s.languageTables|
    requires forall k :: 0 <= k < |s.languageTables| ==> |s.languageTables[k].languageId| == 4
    ensures var b := s.Packed().value;
      16 + 12 * |s.languageTables| <= |b| && LanguageTablesAt(b, |s.languageTables|) == s.languageTables
  {
    var b := s.Packed().value;
    StrgPackedLanguageEntries(s);
    forall k | 0 <= k < |s.languageTables| ensures LanguageTablesAt(b, |s.languageTables|)[k] == s.languageTables[k] {
      LanguageTableRoundTrip(s.languageTables[k]);
    }
  }

  // ---------------------------------------------------------------------
  // Decoding

  lemma {:induction false} StringTablesAtLayout(packed: Bytes, start: int, ts: seq<LanguageTable>, stringCount: nat)
    requires StringTablesAt(packed, start, ts, stringCount).Ok?
    ensures forall k :: 0 <= k < |ts| ==>
      StringTable.Decode(StringTableBytes(packed, start, ts[k]), stringCount) == Ok(StringTablesAt(packed, start, ts, stringCount).value[k])
  {
    if ts != [] {
      StringTablesAtLayout(packed, start, ts[1..], stringCount);
      var tables := StringTablesAt(packed, start, ts, stringCount).value;
      assert tables[1..] == StringTablesAt(packed, start, ts[1..], stringCount).value;
      forall k | 0 < k < |ts|
        ensures StringTable.Decode(StringTableBytes(packed, start, ts[k]), stringCount) == Ok(tables[k])
      {
        assert ts[1..][k - 1] == ts[k];
      }
    }
  }

  /** What decoding a STRG establishes about the header: the four words
      as read, and one language entry per counted language, each
      re-encoding to its 12 bytes after the header. */
  lemma StrgDecodeHeader(packed: Bytes)
    requires STRG.Decode(packed).Ok?
    ensures var s := STRG.Decode(packed).value;
      && 16 + 12 * s.languageCount <= |packed|
      && s.magicNumber == UnpackU32(packed[0..4]) && s.version == UnpackU32(packed[4..8])
      && s.languageCount == UnpackU32(packed[8..12]) && s.stringCount == UnpackU32(packed[12..16])
      && |s.languageTables| == s.languageCount
      && (forall k :: 0 <= k < s.languageCount ==> s.languageTables[k].Packed() == packed[16 + 12 * k..28 + 12 * k])
  {
    var lc := UnpackU32(packed[8..12]);
    var r := STRG.DecodeTables(packed, UnpackU32(packed[0..4]), UnpackU32(packed[4..8]), lc,
                               UnpackU32(packed[12..16]), LanguageTablesAt(packed, lc));
    assert STRG.Decode(packed) == r;
    DecodeTablesFields(packed, UnpackU32(packed[0..4]), UnpackU32(packed[4..8]), lc,
                       UnpackU32(packed[12..16]), LanguageTablesAt(packed, lc));
  }

  /** What `DecodeTables` keeps of its arguments, and where it finds the
      name table and the string tables. */
  lemma DecodeTablesFields(packed: Bytes, magicNumber: int, version: int, languageCount: nat, stringCount: nat,
                           languageTables: seq<LanguageTable>)
    requires STRG.DecodeTables(packed, magicNumber, version, languageCount, stringCount, languageTables).Ok?
    ensures var s := STRG.DecodeTables(packed, magicNumber, version, languageCount, stringCount, languageTables).value;
      && s.magicNumber == magicNumber && s.version == version
      && s.languageCount == languageCount && s.stringCount == stringCount
      && s.languageTables == languageTables
      && NameTable.Decode(Drop(packed, LanguageTablesEnd(languageCount))) == Ok(s.nameTable)
      && StringTablesAt(packed, StringTablesStart(languageCount, s.nameTable), languageTables, stringCount) == Ok(s.stringTables)
  {
  }

  /** `Decode` past the header and the language entries. */
  lemma StrgDecodeIsDecodeTables(packed: Bytes)
    requires STRG.Decode(packed).Ok?
    ensures 16 <= |packed| && 16 + 12 * UnpackU32(packed[8..12]) <= |packed|
    ensures STRG.Decode(packed)
              == STRG.DecodeTables(packed, UnpackU32(packed[0..4]), UnpackU32(packed[4..8]), UnpackU32(packed[8..12]),
                                   UnpackU32(packed[12..16]), LanguageTablesAt(packed, UnpackU32(packed[8..12])))
  {
  }

  /** Decoding reads the name table from the bytes after the language
      entries. */
  lemma StrgDecodeNameTable(packed: Bytes)
    requires STRG.Decode(packed).Ok?
    ensures var s := STRG.Decode(packed).value;
      NameTable.Decode(Drop(packed, LanguageTablesEnd(s.languageCount))) == Ok(s.nameTable)
  {
    StrgDecodeIsDecodeTables(packed);
    var lc := UnpackU32(packed[8..12]);
    DecodeTablesFields(packed, UnpackU32(packed[0..4]), UnpackU32(packed[4..8]), lc,
                       UnpackU32(packed[12..16]), LanguageTablesAt(packed, lc));
  }

  /** Each string table `DecodeTables` returns is the one decoded from the
      bytes its language entry points at, and holds `stringCount` offsets
      and strings. */
  lemma DecodeTablesStringTables(packed: Bytes, magicNumber: int, version: int, languageCount: nat, stringCount: nat,
                                 languageTables: seq<LanguageTable>)
    requires STRG.DecodeTables(packed, magicNumber, version, languageCount, stringCount, languageTables).Ok?
    ensures var s := STRG.DecodeTables(packed, magicNumber, version, languageCount, stringCount, languageTables).value;
            var start := StringTablesStart(languageCount, s.nameTable);
      && |s.stringTables| == |languageTables|
      && forall k :: 0 <= k < |languageTables| ==>
           && StringTable.Decode(StringTableBytes(packed, start, languageTables[k]), stringCount) == Ok(s.stringTables[k])
           && s.stringTables[k].Valid() && s.stringTables[k].count == stringCount
  {
    var s := STRG.DecodeTables(packed, magicNumber, version, languageCount, stringCount, languageTables).value;
    var start := StringTablesStart(languageCount, s.nameTable);
    DecodeTablesFields(packed, magicNumber, version, languageCount, stringCount, languageTables);
    StringTablesAtLayout(packed, start, languageTables, stringCount);
    forall k | 0 <= k < |languageTables| ensures s.stringTables[k].Valid() && s.stringTables[k].count == stringCount {
      StringTableDecodeLayout(StringTableBytes(packed, start, languageTables[k]), stringCount);
    }
  }

  /** Decoding reads, for each language entry, a table of `string_count`
      strings from the `strings_size` bytes at `strings_offset` past the end
      of the name table. */
  lemma StrgDecodeStringTables(packed: Bytes)
    requires STRG.Decode(packed).Ok?
    ensures var s := STRG.Decode(packed).value;
            var start := StringTablesStart(s.languageCount, s.nameTable);
      && |s.stringTables| == |s.languageTables|
      && forall k :: 0 <= k < |s.languageTables| ==>
           && StringTable.Decode(StringTableBytes(packed, start, s.languageTables[k]), s.stringCount) == Ok(s.stringTables[k])
           && s.stringTables[k].Valid() && s.stringTables[k].count == s.stringCount
  {
    StrgDecodeIsDecodeTables(packed);
    var lc := UnpackU32(packed[8..12]);
    DecodeTablesFields(packed, UnpackU32(packed[0..4]), UnpackU32(packed[4..8]), lc,
                       UnpackU32(packed[12..16]), LanguageTablesAt(packed, lc));
    DecodeTablesStringTables(packed, UnpackU32(packed[0..4]), UnpackU32(packed[4..8]), lc,
                             UnpackU32(packed[12..16]), LanguageTablesAt(packed, lc));
  }

  // ---------------------------------------------------------------------
  // Replacing a string table

  /** The replacement at `index` keeps the header fields and the name
      table. */
  lemma TableReplacedAtKeepsRest(s: STRG, index: nat, newTable: StringTable)
    requires index < |s.languageTables|
    ensures var u := s.TableReplacedAt(index, newTable);
      u.(languageTables := s.languageTables, stringTables := s.stringTables) == s
  {
  }

  /** As written, language entry `k` after the replacement at `index`:
      unchanged before the index, the new size at the index, and after it
      an offset equal to the entry's own size plus the change in size. */
  lemma TableReplacedAtEntry(s: STRG, index: nat, newTable: StringTable, k: nat)
    requires index < |s.languageTables| && k < |s.languageTables|
    ensures var u := s.TableReplacedAt(index, newTable);
            var lt := s.languageTables;
            var delta := newTable.PackedSize() - lt[index].stringsSize;
      && |u.languageTables| == |lt|
      && u.languageTables[k] == if k < index then lt[k]
                                else if k == index then lt[index].(stringsSize := newTable.PackedSize())
                                else lt[k].(stringsOffset := lt[k].stringsSize + delta)
  {
    var lt := s.languageTables;
    var delta := newTable.PackedSize() - lt[index].stringsSize;
    var later := OffsetsFromSizes(lt[index + 1..], delta);
    IndexOfSplice(lt[..index], lt[index].(stringsSize := newTable.PackedSize()), later, k);
  }

  /** The corrected replacement at `index`: the same, except that later
      entries move by the change in size. */
  lemma TableReplacedAtFixedEntry(s: STRG, index: nat, newTable: StringTable, k: nat)
    requires index < |s.languageTables| && k < |s.languageTables|
    ensures var u := s.TableReplacedAtFixed(index, newTable);
            var lt := s.languageTables;
            var delta := newTable.PackedSize() - lt[index].stringsSize;
      && |u.languageTables| == |lt|
      && u.languageTables[k] == if k < index then lt[k]
                                else if k == index then lt[index].(stringsSize := newTable.PackedSize())
                                else lt[k].(stringsOffset := lt[k].stringsOffset + delta)
  {
    var lt := s.languageTables;
    var delta := newTable.PackedSize() - lt[index].stringsSize;
    var later := OffsetsShifted(lt[index + 1..], delta);
    IndexOfSplice(lt[..index], lt[index].(stringsSize := newTable.PackedSize()), later, k);
  }

  /** Both replacements put the new table at `index` and keep the others. */
  lemma TableReplacedAtTables(s: STRG, index: nat, newTable: StringTable)
    requires index < |s.languageTables| && index < |s.stringTables|
    ensures s.TableReplacedAt(index, newTable).stringTables == s.stringTables[index := newTable]
    ensures s.TableReplacedAtFixed(index, newTable).stringTables == s.stringTables[index := newTable]
  {
    SpliceIsUpdate(s.stringTables, index, newTable);
  }

  /** `with_string_table_replaced(lang, t)` as written: entries before the
      index unchanged; the entry at the index keeps its offset and takes
      `t.packed_size`; each later entry's offset becomes its own size plus
      the change in size; the string table at the index is `t`; the header
      and name table are untouched. */
  lemma StringTableReplacedShape(s: STRG, languageId: Bytes, newTable: StringTable)
    requires languageId in s.LanguageIndices() && newTable.Packable()
    ensures s.StringTableReplaced(languageId, newTable).Ok?
    ensures var u := s.StringTableReplaced(languageId, newTable).value;
      u.(languageTables := s.languageTables, stringTables := s.stringTables) == s
    ensures var u := s.StringTableReplaced(languageId, newTable).value;
            var i := s.LanguageIndices()[languageId];
            var lt := s.languageTables;
            var delta := newTable.PackedSize() - lt[i].stringsSize;
      && |u.languageTables| == |lt|
      && forall k :: 0 <= k < |lt| ==>
           u.languageTables[k] == if k < i then lt[k]
                                  else if k == i then lt[i].(stringsSize := newTable.PackedSize())
                                  else lt[k].(stringsOffset := lt[k].stringsSize + delta)
    ensures var i := s.LanguageIndices()[languageId];
      i < |s.stringTables| ==> s.StringTableReplaced(languageId, newTable).value.stringTables == s.stringTables[i := newTable]
  {
    var i := s.LanguageIndices()[languageId];
    assert s.StringTableReplaced(languageId, newTable) == Ok(s.TableReplacedAt(i, newTable));
    TableReplacedAtKeepsRest(s, i, newTable);
    forall k | 0 <= k < |s.languageTables| {
      TableReplacedAtEntry(s, i, newTable, k);
    }
    if i < |s.stringTables| {
      TableReplacedAtTables(s, i, newTable);
    }
  }

  /** With the corrected offsets, a STRG whose language entries describe
      where its string tables lie keeps that property. */
  lemma StringTableReplacedFixedKeepsLayout(s: STRG, languageId: Bytes, newTable: StringTable)
    requires s.LaidOut() && languageId in s.LanguageIndices() && newTable.Packable()
    ensures s.StringTableReplacedFixed(languageId, newTable).Ok?
    ensures s.StringTableReplacedFixed(languageId, newTable).value.LaidOut()
  {
    var i := s.LanguageIndices()[languageId];
    assert s.StringTableReplacedFixed(languageId, newTable) == Ok(s.TableReplacedAtFixed(i, newTable));
    TableReplacedAtFixedKeepsLayout(s, i, newTable);
  }

  lemma TableReplacedAtFixedKeepsLayout(s: STRG, index: nat, newTable: StringTable)
    requires s.LaidOut() && index < |s.languageTables|
    ensures s.TableReplacedAtFixed(index, newTable).LaidOut()
  {
    var u := s.TableReplacedAtFixed(index, newTable);
    var ult := u.languageTables;
    TableReplacedAtTables(s, index, newTable);
    TableReplacedAtFixedEntry(s, index, newTable, 0);
    forall k | 0 <= k < |ult| ensures ult[k].stringsSize == u.stringTables[k].PackedSize() {
      TableReplacedAtFixedEntry(s, index, newTable, k);
    }
    forall k | 0 < k < |ult| ensures ult[k].stringsOffset == ult[k - 1].stringsOffset + ult[k - 1].stringsSize {
      TableReplacedAtFixedContiguous(s, index, newTable, k);
    }
  }

  /** After the corrected replacement, entry `k` still starts where entry
      `k - 1` ends. */
  lemma TableReplacedAtFixedContiguous(s: STRG, index: nat, newTable: StringTable, k: nat)
    requires s.LaidOut() && index < |s.languageTables| && 0 < k < |s.languageTables|
    ensures var ult := s.TableReplacedAtFixed(index, newTable).languageTables;
      ult[k].stringsOffset == ult[k - 1].stringsOffset + ult[k - 1].stringsSize
  {
    TableReplacedAtFixedEntry(s, index, newTable, k);
    TableReplacedAtFixedEntry(s, index, newTable, k - 1);
  }

  /** As written, the replacement moves the next language entry's offset
      away from the end of the replaced table: here the English table of 8
      bytes is replaced by one of 6, and the French entry's offset becomes
      its own size 6 minus 2, not 8 minus 2. */
  lemma StringTableReplacedBreaksLayout()
    ensures var s := TwoLanguages();
      && s.StringTableReplaced(English(), ShortTable()).Ok?
      && s.StringTableReplaced(English(), ShortTable()).value.languageTables[1].stringsOffset == 4
      && !s.StringTableReplaced(English(), ShortTable()).value.LaidOut()
  {
    var s := TwoLanguages();
    TableSizes();
    assert s.LanguageIndices() == map[English() := 0, French() := 1];
    assert s.StringTableReplaced(English(), ShortTable()) == Ok(s.TableReplacedAt(0, ShortTable()));
    TableReplacedAtEntry(s, 0, ShortTable(), 0);
    TableReplacedAtEntry(s, 0, ShortTable(), 1);
  }

  /** The same replacement with the corrected offsets puts the French entry
      at 6, right after the new table. */
  lemma StringTableReplacedFixedExample()
    ensures var s := TwoLanguages();
      && s.StringTableReplacedFixed(English(), ShortTable()).Ok?
      && s.StringTableReplacedFixed(English(), ShortTable()).value.languageTables[1].stringsOffset == 6
  {
    var s := TwoLanguages();
    TableSizes();
    assert s.LanguageIndices() == map[English() := 0, French() := 1];
    assert s.StringTableReplacedFixed(English(), ShortTable()) == Ok(s.TableReplacedAtFixed(0, ShortTable()));
    TableReplacedAtFixedEntry(s, 0, ShortTable(), 1);
  }

  /** The example's language entries describe where its tables lie. */
  lemma TwoLanguagesLaidOut()
    ensures TwoLanguages().LaidOut()
  {
    TableSizes();
  }

  function English(): Bytes { [0x45, 0x4E, 0x47, 0x4C] }
  function French(): Bytes { [0x46, 0x52, 0x45, 0x4E] }

  /** One empty string: 4 offset bytes and a 00 00 terminator. */
  function ShortTable(): StringTable { StringTable(1, [4], [[]]) }

  /** One one-unit string: 4 offset bytes, 2 bytes and a terminator. */
  function LongTable(): StringTable { StringTable(1, [4], [[0x41]]) }

  function TwoLanguages(): STRG
  {
    STRG(0, 0, 2, 1,
         [LanguageTable(English(), 0, 8), LanguageTable(French(), 8, 6)],
         NameTable(0, 0, [], []),
         [LongTable(), ShortTable()])
  }

  lemma TableSizes()
    ensures ShortTable().Packable() && ShortTable().PackedSize() == 6
    ensures LongTable().Packable() && LongTable().PackedSize() == 8
  {
    assert ShortTable().Pairs() == [(4, [])];
    assert LongTable().Pairs() == [(4, [0x41])];
  }
}
