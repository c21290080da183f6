/** The fixed-layout records of a PAK archive (pak.py:17-89): the named
    resource entry ">4sII" followed by its name, the 20-byte resource entry
    ">I4sIII", and the payload kept as raw bytes. */
module PakRecords {
  import opened Results
  import opened Binary

  /** A named resource: its four-character type tag, its asset ID, the
      stored length of its name, and the name. */
  datatype NamedResourceTable = NamedResourceTable(assetType: Bytes, assetId: int, nameLength: int, name: Bytes)
  {
    /** `struct.pack` accepts the numeric fields. */
    predicate Packable()
    {
      IsU32(assetId) && IsU32(nameLength)
    }

    /** `packed_size`, which is `len(packed())`: the name is written as
        stored, whatever `name_length` says. */
    function PackedSize(): nat
    {
      12 + |name|
    }

    function Packed(): (r: Bytes)
      requires Packable()
      ensures |r| == PackedSize()
      ensures r[..12] == Pack4s(assetType) + PackU32(assetId) + PackU32(nameLength)
      ensures r[12..] == name
    {
      Pack4s(assetType) + PackU32(assetId) + PackU32(nameLength) + name
    }

    /** `from_packed`: the 12-byte header from the front of `packed` (there
        must be 12 bytes), then up to `name_length` bytes of name after it;
        bytes past the name are ignored. */
    static function FromPacked(packed: Bytes): (r: Result<NamedResourceTable>)
      ensures r.Ok? <==> 12 <= |packed|
      ensures r.Err? ==> r.error == StructError
      ensures r.Ok? ==> && r.value.Packable() && |r.value.assetType| == 4
                        && r.value.nameLength == UnpackU32(packed[8..12])
                        && r.value.name == Slice(packed, 12, 12 + r.value.nameLength)
    {
      if |packed| < 12 then Err(StructError)
      else
        var nameLength := UnpackU32(packed[8..12]);
        Ok(NamedResourceTable(packed[0..4], UnpackU32(packed[4..8]), nameLength, Slice(packed, 12, 12 + nameLength)))
    }
  }

  /** A packed named entry reads back as itself, whatever follows it, when
      its tag has four bytes, its numbers fit in 32 bits and `name_length`
      is the length of its name. */
  lemma NamedResourceTableRoundTrip(t: NamedResourceTable, rest: Bytes)
    requires t.Packable() && |t.assetType| == 4 && t.nameLength == |t.name|
    ensures NamedResourceTable.FromPacked(t.Packed() + rest) == Ok(t)
  {
    var b := t.Packed() + rest;
    assert b[0..4] == t.assetType;
    assert b[4..8] == PackU32(t.assetId);
    assert b[8..12] == PackU32(t.nameLength);
    assert b[12..12 + |t.name|] == t.name;
  }

  /** When the buffer holds the whole name, decoding and re-encoding gives
      back the 12 + `name_length` bytes that were read. */
  lemma NamedResourceTableBytesRoundTrip(b: Bytes)
    requires 12 <= |b| && 12 + UnpackU32(b[8..12]) <= |b|
    ensures NamedResourceTable.FromPacked(b).Ok?
    ensures NamedResourceTable.FromPacked(b).value.Packed() == b[..12 + UnpackU32(b[8..12])]
  {
    var n := UnpackU32(b[8..12]);
    PackUnpackU32(b[4..8]);
    PackUnpackU32(b[8..12]);
    assert b[..12 + n] == b[0..4] + b[4..8] + b[8..12] + b[12..12 + n];
  }

  /** One entry of the resource table: whether the payload is compressed,
      its type tag, its asset ID, and the size and absolute offset of its
      payload. */
  datatype ResourceTable = ResourceTable(compressed: bool, assetType: Bytes, assetId: int, size: int, offset: int)
  {
    predicate Packable()
    {
      IsU32(assetId) && IsU32(size) && IsU32(offset)
    }

    /** `packed_size`, which is the length of `packed()`. */
    function PackedSize(): nat { 20 }

    /** `int(compressed)` as a u32, then the tag and the three numbers. */
    function Packed(): (r: Bytes)
      requires Packable()
      ensures |r| == PackedSize()
    {
      PackU32(if compressed then 1 else 0) + Pack4s(assetType) + PackU32(assetId) + PackU32(size) + PackU32(offset)
    }

    /** `from_packed`: exactly 20 bytes; any non-zero first word means
        compressed. */
    static function FromPacked(packed: Bytes): (r: Result<ResourceTable>)
      ensures r.Ok? <==> |packed| == 20
      ensures r.Err? ==> r.error == StructError
      ensures r.Ok? ==> && r.value.Packable() && |r.value.assetType| == 4
                        && r.value.size >= 0 && r.value.offset >= 0
                        && (r.value.compressed <==> UnpackU32(packed[0..4]) != 0)
    {
      if |packed| != 20 then Err(StructError)
      else Ok(ResourceTable(UnpackU32(packed[0..4]) != 0, packed[4..8], UnpackU32(packed[8..12]),
                            UnpackU32(packed[12..16]), UnpackU32(packed[16..20])))
    }
  }

  lemma ResourceTableRoundTrip(t: ResourceTable)
    requires t.Packable() && |t.assetType| == 4
    ensures ResourceTable.FromPacked(t.Packed()) == Ok(t)
  {
    FiveWords(PackU32(if t.compressed then 1 else 0), Pack4s(t.assetType), PackU32(t.assetId), PackU32(t.size), PackU32(t.offset));
  }

  /** The five four-byte words of a 20-byte entry. */
  lemma FiveWords(a: Bytes, b: Bytes, c: Bytes, d: Bytes, e: Bytes)
    requires |a| == |b| == |c| == |d| == |e| == 4
    ensures var s := a + b + c + d + e;
            s[0..4] == a && s[4..8] == b && s[8..12] == c && s[12..16] == d && s[16..20] == e
  {
  }

  /** A 20-byte entry re-encodes byte for byte exactly when its first word
      is 0 or 1: any other non-zero word is read as `True` and written back
      as 1. */
  lemma ResourceTableBytesRoundTrip(b: Bytes)
    requires |b| == 20
    ensures ResourceTable.FromPacked(b).Ok?
    ensures ResourceTable.FromPacked(b).value.Packed() == b <==> UnpackU32(b[0..4]) <= 1
  {
    if UnpackU32(b[0..4]) <= 1 {
      RepackedWhenFlagIsBit(b);
    } else {
      RepackedFlagIsBit(b);
    }
  }

  /** A first word of 0 or 1 is written back as it was read. */
  lemma RepackedWhenFlagIsBit(b: Bytes)
    requires |b| == 20 && UnpackU32(b[0..4]) <= 1
    ensures ResourceTable.FromPacked(b).value.Packed() == b
  {
    var t := ResourceTable.FromPacked(b).value;
    PackUnpackU32(b[0..4]);
    PackUnpackU32(b[8..12]);
    PackUnpackU32(b[12..16]);
    PackUnpackU32(b[16..20]);
    assert PackU32(if t.compressed then 1 else 0) == b[0..4];
    assert b == b[0..4] + b[4..8] + b[8..12] + b[12..16] + b[16..20];
  }

  /** Whatever was read, the first word written back is 0 or 1. */
  lemma RepackedFlagIsBit(b: Bytes)
    requires |b| == 20
    ensures UnpackU32(ResourceTable.FromPacked(b).value.Packed()[0..4]) <= 1
  {
    var t := ResourceTable.FromPacked(b).value;
    var flag := if t.compressed then 1 else 0;
    FiveWords(PackU32(flag), Pack4s(t.assetType), PackU32(t.assetId), PackU32(t.size), PackU32(t.offset));
  }

  /** `UnimplementedResource`: the payload bytes, passed through. */
  datatype UnimplementedResource = UnimplementedResource(data: Bytes)
  {
    /** `packed_size`, which is the length of `packed()`. */
    function PackedSize(): nat { |data| }

    function Packed(): (r: Bytes)
      ensures |r| == PackedSize()
    {
      data
    }

    static function FromPacked(packed: Bytes): (r: UnimplementedResource)
      ensures r.Packed() == packed
    {
      UnimplementedResource(packed)
    }
  }
}
