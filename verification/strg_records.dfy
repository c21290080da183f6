/** The fixed-width records of a STRG payload (strg.py:9-50): the 12-byte
    language entry ">4sII" and the 8-byte name entry ">II". */
module StrgRecords {
  import opened Results
  import opened Binary

  /** One language of a STRG: its four-character tag, and where its string
      table lies relative to the start of the string-table region. */
  datatype LanguageTable = LanguageTable(languageId: Bytes, stringsOffset: int, stringsSize: int)
  {
    /** `struct.pack` accepts the fields. */
    predicate Packable()
    {
      IsU32(stringsOffset) && IsU32(stringsSize)
    }

    /** `packed_size`, which is the length of `packed()`. */
    function PackedSize(): nat { 12 }

    function Packed(): (r: Bytes)
      requires Packable()
      ensures |r| == PackedSize()
    {
      Pack4s(languageId) + PackU32(stringsOffset) + PackU32(stringsSize)
    }

    /** `from_packed`: `struct.unpack` wants exactly 12 bytes. */
    static function FromPacked(packed: Bytes): (r: Result<LanguageTable>)
      ensures r.Ok? <==> |packed| == 12
      ensures r.Err? ==> r.error == StructError
      ensures r.Ok? ==> r.value.Packable() && |r.value.languageId| == 4
    {
      if |packed| != 12 then Err(StructError)
      else Ok(LanguageTable(packed[0..4], UnpackU32(packed[4..8]), UnpackU32(packed[8..12])))
    }
  }

  /** Decoding a packed language entry gives it back whenever its tag has four
      bytes and its numbers fit in 32 bits. */
  lemma LanguageTableRoundTrip(t: LanguageTable)
    requires t.Packable() && |t.languageId| == 4
    ensures LanguageTable.FromPacked(t.Packed()) == Ok(t)
  {
    var b := t.Packed();
    assert b[0..4] == t.languageId;
    assert b[4..8] == PackU32(t.stringsOffset);
    assert b[8..12] == PackU32(t.stringsSize);
  }

  /** Every 12-byte buffer is re-encoded byte for byte. */
  lemma LanguageTableBytesRoundTrip(b: Bytes)
    requires |b| == 12
    ensures LanguageTable.FromPacked(b).Ok? && LanguageTable.FromPacked(b).value.Packed() == b
  {
    PackUnpackU32(b[4..8]);
    PackUnpackU32(b[8..12]);
    assert b == b[0..4] + b[4..8] + b[8..12];
  }

  /** One entry of the name table: where a name lies relative to the start of
      the name table's body, and the string index the name stands for. */
  datatype NameEntry = NameEntry(offset: nat, stringIndex: nat)
  {
    predicate Packable()
    {
      IsU32(offset) && IsU32(stringIndex)
    }

    /** `packed_size`, which is the length of `packed()`. */
    function PackedSize(): nat { 8 }

    function Packed(): (r: Bytes)
      requires Packable()
      ensures |r| == PackedSize()
    {
      PackU32(offset) + PackU32(stringIndex)
    }

    /** `from_packed`: `struct.unpack` wants exactly 8 bytes. */
    static function FromPacked(packed: Bytes): (r: Result<NameEntry>)
      ensures r.Ok? <==> |packed| == 8
      ensures r.Err? ==> r.error == StructError
      ensures r.Ok? ==> r.value.Packable()
    {
      if |packed| != 8 then Err(StructError)
      else Ok(NameEntry(UnpackU32(packed[0..4]), UnpackU32(packed[4..8])))
    }
  }

  lemma NameEntryRoundTrip(e: NameEntry)
    requires e.Packable()
    ensures NameEntry.FromPacked(e.Packed()) == Ok(e)
  {
    var b := e.Packed();
    assert b[0..4] == PackU32(e.offset);
    assert b[4..8] == PackU32(e.stringIndex);
  }

  lemma NameEntryBytesRoundTrip(b: Bytes)
    requires |b| == 8
    ensures NameEntry.FromPacked(b).Ok? && NameEntry.FromPacked(b).value.Packed() == b
  {
    PackUnpackU32(b[0..4]);
    PackUnpackU32(b[4..8]);
    assert b == b[0..4] + b[4..8];
  }
}
