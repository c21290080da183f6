/** The byte layout of a PAK: what `packed()` writes where, and what
    `from_packed` reads back from it. */
module PakLayout {
  import opened Results
  import opened Binary
  import opened Sequences
  import opened PakRecords
  import opened Pak

  // ---------------------------------------------------------------------
  // Payload region

  /** The unpadded sizes never exceed the padded ones, and agree with them
      exactly when every payload size is already a multiple of 32. */
  lemma {:induction false} ResourcesSizeBound(rs: seq<Resource>)
    ensures ResourcesSize(rs) <= AlignedResourcesSize(rs)
    ensures ResourcesSize(rs) == AlignedResourcesSize(rs) <==> forall k :: 0 <= k < |rs| ==> rs[k].PackedSize() % 32 == 0
  {
    if rs != [] {
      ResourcesSizeBound(rs[1..]);
      if forall k :: 0 <= k < |rs[1..]| ==> rs[1..][k].PackedSize() % 32 == 0 {
        if rs[0].PackedSize() % 32 == 0 {
          forall k | 0 <= k < |rs| ensures rs[k].PackedSize() % 32 == 0 {
            if k > 0 {
              assert rs[k] == rs[1..][k - 1];
            }
          }
        }
      } else {
        var k :| 0 <= k < |rs[1..]| && rs[1..][k].PackedSize() % 32 != 0;
        assert rs[k + 1] == rs[1..][k];
      }
    }
  }

  /** The padded size of the first `k` payloads grows by the padded size of
      payload `k`. */
  lemma {:induction false} AlignedResourcesSizeStep(rs: seq<Resource>, k: nat)
    requires k < |rs|
    ensures AlignedResourcesSize(rs[..k + 1]) == AlignedResourcesSize(rs[..k]) + AlignedSize(rs[k].PackedSize())
  {
    if k == 0 {
      assert rs[..1][1..] == [];
    } else {
      assert rs[..k + 1][1..] == rs[1..][..k];
      assert rs[..k][1..] == rs[1..][..k - 1];
      AlignedResourcesSizeStep(rs[1..], k - 1);
    }
  }

  // ---------------------------------------------------------------------
  // The whole archive

  /** Where the three parts of a concatenation sit. */
  lemma ThreeParts(t: Bytes, z: Bytes, r: Bytes)
    ensures var b := t + z + r;
            && b[..|t|] == t && b[|t| + |z|..] == r
            && forall i :: |t| <= i < |t| + |z| ==> b[i] == z[i - |t|]
  {
    var b := t + z + r;
    assert b[|t| + |z|..] == r;
  }

  /** `packed()` is a multiple of 32 bytes long: the tables, 0x00 bytes up
      to the next multiple of 32, then the padded payloads. */
  lemma PackedLayout(p: PAK)
    requires p.Packable()
    ensures var b := p.Packed().value;
            var c := p.ContentBeforeResourcesSize();
            var n := p.PaddingBeforeResourcesSize();
            && |b| % 32 == 0
            && b[..c] == p.TablesBytes()
            && (forall i :: c <= i < c + n ==> b[i] == 0x00)
            && b[c + n..] == JoinAligned(PackedPayloads(p.resources))
  {
    var t := p.TablesBytes();
    var z := Fill(0, p.PaddingBeforeResourcesSize());
    var r := JoinAligned(PackedPayloads(p.resources));
    assert p.Packed().value == t + z + r;
    AlignedChunksSizeAligned(PackedPayloads(p.resources));
    AlignedSum(|t| + |z|, |r|);
    ThreeParts(t, z, r);
  }

  /** The padded payloads fill `packed()` from the end of the padding on. */
  lemma PackedPayloadRegion(p: PAK)
    requires p.Packable()
    ensures var c := p.ContentBeforeResourcesSize() + p.PaddingBeforeResourcesSize();
            && c <= |p.Packed().value|
            && p.Packed().value[c..] == JoinAligned(PackedPayloads(p.resources))
  {
    var t := p.TablesBytes();
    var z := Fill(0, p.PaddingBeforeResourcesSize());
    var r := JoinAligned(PackedPayloads(p.resources));
    assert p.Packed().value == t + z + r;
    ThreeParts(t, z, r);
  }

  /** `packed_size` counts the payloads without their padding, so it never
      exceeds the length of `packed()`, and equals it exactly when every
      payload size is a multiple of 32. */
  lemma PackedSizeBound(p: PAK)
    requires p.Packable()
    ensures p.PackedSize() <= |p.Packed().value|
    ensures p.PackedSize() == |p.Packed().value|
            <==> forall k :: 0 <= k < |p.resources| ==> p.resources[k].PackedSize() % 32 == 0
  {
    ResourcesSizeBound(p.resources);
  }

  /** Where payload `k` starts in `packed()`. */
  function ResourceOffset(p: PAK, k: nat): nat
    requires k <= |p.resources|
  {
    p.ContentBeforeResourcesSize() + p.PaddingBeforeResourcesSize() + AlignedResourcesSize(p.resources[..k])
  }

  /** The padded sizes of the first `k` payloads. */
  lemma PackedPayloadsPrefix(rs: seq<Resource>, k: nat)
    requires forall j :: 0 <= j < |rs| ==> rs[j].Packable()
    requires k <= |rs|
    ensures AlignedChunksSize(PackedPayloads(rs)[..k]) == AlignedResourcesSize(rs[..k])
  {
    assert PackedPayloads(rs)[..k] == PackedPayloads(rs[..k]);
    PackedPayloadsSize(rs[..k]);
  }

  /** Payloads start at multiples of 32. */
  lemma ResourceOffsetAligned(p: PAK, k: nat)
    requires p.Packable() && k <= |p.resources|
    ensures ResourceOffset(p, k) % 32 == 0
  {
    var c := p.ContentBeforeResourcesSize() + p.PaddingBeforeResourcesSize();
    assert c % 32 == 0;
    PackedPayloadsPrefix(p.resources, k);
    AlignedChunksSizeAligned(PackedPayloads(p.resources)[..k]);
    AlignedSum(c, AlignedResourcesSize(p.resources[..k]));
  }

  /** Payload `k` of a packed PAK is its `packed()` bytes followed by 0xFF
      padding, right after the padded payloads before it. */
  lemma PackedResourceAt(p: PAK, k: nat)
    requires p.Packable() && k < |p.resources|
    ensures PaddedAt(p.Packed().value, ResourceOffset(p, k), p.resources[k].Packed().value)
  {
    PackedPayloadRegion(p);
    PayloadAt(p.Packed().value, p.ContentBeforeResourcesSize() + p.PaddingBeforeResourcesSize(), p.resources, k);
  }

  /** Payload `k` of a region that holds the padded payloads from `c` on. */
  lemma PayloadAt(b: Bytes, c: nat, rs: seq<Resource>, k: nat)
    requires forall j :: 0 <= j < |rs| ==> rs[j].Packable()
    requires c <= |b| && b[c..] == JoinAligned(PackedPayloads(rs)) && k < |rs|
    ensures PaddedAt(b, c + AlignedResourcesSize(rs[..k]), rs[k].Packed().value)
  {
    var chunks := PackedPayloads(rs);
    RegionAt(b, c, chunks, k);
    PackedPayloadsPrefix(rs, k);
    assert chunks[k] == rs[k].Packed().value;
  }

  // ---------------------------------------------------------------------
  // Decoding the named entries

  /** One step of decoding the named entries: the entry `t` read at
      `offset`, after which decoding goes on 12 + `name_length` further. */
  lemma NamedTablesAtStep(packed: Bytes, offset: nat, n: nat, acc: seq<NamedResourceTable>) returns (t: NamedResourceTable)
    requires 0 < n && NamedTablesAt(packed, offset, n, acc).Ok?
    ensures 0 <= t.nameLength
    ensures NamedTablesAt(packed, offset, n, acc) == NamedTablesAt(packed, offset + 12 + t.nameLength, n - 1, acc + [t])
  {
    t := NamedResourceTable.FromPacked(Drop(packed, offset)).value;
  }

  /** Decoding advances by 12 + `name_length` for every entry it reads, so
      with nothing read before, the entries end at `offset` plus their span. */
  lemma {:induction false} NamedTablesAtAdvance(packed: Bytes, offset: nat, n: nat, acc: seq<NamedResourceTable>, run: NamedRun)
    requires NamedTablesAt(packed, offset, n, acc) == Ok(run)
    ensures run.end + NamedSpan(acc) == offset + NamedSpan(run.tables)
    decreases n
  {
    if n > 0 {
      var t := NamedTablesAtStep(packed, offset, n, acc);
      NamedTablesAtAdvance(packed, offset + 12 + t.nameLength, n - 1, acc + [t], run);
      NamedSpanAppend(acc, t);
    }
  }

  // ---------------------------------------------------------------------
  // What `from_packed` reads where

  /** Decoding the payloads succeeds exactly when every entry's payload
      decodes; payload k is then the one decoded from entry k, and
      otherwise the failure is that of the first entry that fails. */
  lemma ResourcesAtEach(packed: Bytes, tables: seq<ResourceTable>)
    ensures ResourcesAt(packed, tables).Ok? <==> forall k :: 0 <= k < |tables| ==> DecodeResource(packed, tables[k]).Ok?
    ensures ResourcesAt(packed, tables).Ok? ==>
              forall k :: 0 <= k < |tables| ==> DecodeResource(packed, tables[k]) == Ok(ResourcesAt(packed, tables).value[k])
    ensures ResourcesAt(packed, tables).Err? ==>
              exists k :: && 0 <= k < |tables| && DecodeResource(packed, tables[k]) == Err(ResourcesAt(packed, tables).error)
                          && forall j :: 0 <= j < k ==> DecodeResource(packed, tables[j]).Ok?
  {
    if ResourcesAt(packed, tables).Ok? {
      ResourcesAtDecoded(packed, tables);
    } else {
      ResourcesAtFirstFailure(packed, tables);
    }
  }

  /** A successful decoding has payload k decoded from entry k. */
  lemma {:induction false} ResourcesAtDecoded(packed: Bytes, tables: seq<ResourceTable>)
    requires ResourcesAt(packed, tables).Ok?
    ensures forall k :: 0 <= k < |tables| ==> DecodeResource(packed, tables[k]) == Ok(ResourcesAt(packed, tables).value[k])
  {
    if tables != [] {
      var rest := tables[1..];
      var d := DecodeResource(packed, tables[0]);
      var r := ResourcesAt(packed, rest);
      assert d.Ok? && ResourcesAt(packed, tables) == Prepend([d.value], r);
      var whole := ResourcesAt(packed, tables).value;
      assert whole == [d.value] + r.value;
      ResourcesAtDecoded(packed, rest);
      forall k | 0 <= k < |tables|
        ensures DecodeResource(packed, tables[k]) == Ok(whole[k])
      {
        if k > 0 {
          assert tables[k] == rest[k - 1] && whole[k] == r.value[k - 1];
        }
      }
    }
  }

  /** A failed decoding fails as the first entry that fails. */
  lemma {:induction false} ResourcesAtFirstFailure(packed: Bytes, tables: seq<ResourceTable>)
    requires ResourcesAt(packed, tables).Err?
    ensures exists k :: && 0 <= k < |tables| && DecodeResource(packed, tables[k]) == Err(ResourcesAt(packed, tables).error)
                        && forall j :: 0 <= j < k ==> DecodeResource(packed, tables[j]).Ok?
  {
    var rest := tables[1..];
    var d := DecodeResource(packed, tables[0]);
    if d.Ok? {
      var r := ResourcesAt(packed, rest);
      assert ResourcesAt(packed, tables) == Prepend([d.value], r);
      ResourcesAtFirstFailure(packed, rest);
      var k :| && 0 <= k < |rest| && DecodeResource(packed, rest[k]) == Err(r.error)
               && forall j :: 0 <= j < k ==> DecodeResource(packed, rest[j]).Ok?;
      forall j | 0 < j <= k ensures DecodeResource(packed, tables[j]).Ok? {
        assert tables[j] == rest[j - 1];
      }
      assert tables[k + 1] == rest[k];
    }
  }

  /** Every resource entry read is compressed exactly when its slot's flag
      word is non-zero, and re-encodes to its 20-byte slot exactly when
      that word is 0 or 1. */
  lemma ResourceTablesAtSlots(packed: Bytes, start: nat, n: nat)
    requires start <= |packed| && ResourceTablesAt(packed, start, n).Ok?
    ensures var ts := ResourceTablesAt(packed, start, n).value;
            forall k :: 0 <= k < n ==>
              && EntryStart(start, k) + 20 <= |packed|
              && (ts[k].compressed <==> UnpackU32(packed[EntryStart(start, k)..EntryStart(start, k) + 4]) != 0)
              && (ts[k].Packed() == packed[EntryStart(start, k)..EntryStart(start, k) + 20]
                  <==> UnpackU32(packed[EntryStart(start, k)..EntryStart(start, k) + 4]) <= 1)
  {
    var ts := ResourceTablesAt(packed, start, n).value;
    forall k | 0 <= k < n
      ensures EntryStart(start, k) + 20 <= |packed|
      ensures ts[k].compressed <==> UnpackU32(packed[EntryStart(start, k)..EntryStart(start, k) + 4]) != 0
      ensures ts[k].Packed() == packed[EntryStart(start, k)..EntryStart(start, k) + 20]
              <==> UnpackU32(packed[EntryStart(start, k)..EntryStart(start, k) + 4]) <= 1
    {
      EntryStartMonotone(start, k + 1, n);
      SlotRoundTrip(packed, EntryStart(start, k), ts[k]);
    }
  }

  /** The entry decoded from the 20 bytes at `at`. */
  lemma SlotRoundTrip(packed: Bytes, at: nat, t: ResourceTable)
    requires at + 20 <= |packed| && ResourceTable.FromPacked(packed[at..at + 20]) == Ok(t)
    ensures t.compressed <==> UnpackU32(packed[at..at + 4]) != 0
    ensures t.Packed() == packed[at..at + 20] <==> UnpackU32(packed[at..at + 4]) <= 1
  {
    var slot := packed[at..at + 20];
    assert slot[0..4] == packed[at..at + 4];
    ResourceTableBytesRoundTrip(slot);
  }

  /** The part of `from_packed` before the payloads: the header words at
      bytes 0..12, the named entries from byte 12 on, the resource count in
      the four bytes after them, and entry k in the 20 bytes after that at
      20k. */
  lemma DecodeTablesLayout(packed: Bytes, p: PAK)
    requires PAK.DecodeTables(packed) == Ok(p)
    ensures 12 <= |packed|
    ensures && p.majorVersion == UnpackU16(packed[0..2]) && p.minorVersion == UnpackU16(packed[2..4])
            && p.unused == UnpackU32(packed[4..8]) && p.namedResourceCount == UnpackU32(packed[8..12])
    ensures var run := NamedTablesAt(packed, 12, p.namedResourceCount, []);
            run.Ok? && run.value.tables == p.namedResourceTables && run.value.end == 12 + NamedSpan(p.namedResourceTables)
    ensures var e := 12 + NamedSpan(p.namedResourceTables);
            && 0 <= e && EntryStart(e + 4, p.resourceCount) <= |packed|
            && p.resourceCount == UnpackU32(packed[e..e + 4])
            && |p.resourceTables| == p.resourceCount
            && forall k :: 0 <= k < p.resourceCount ==> p.resourceTables[k] == ResourceTableAt(packed, e + 4, k)
    ensures p.resources == []
  {
    DecodeTablesHeader(packed, p);
    DecodeTablesEntries(packed, p);
  }

  /** The header words and the named entries that `DecodeTables` reads. */
  lemma DecodeTablesHeader(packed: Bytes, p: PAK)
    requires PAK.DecodeTables(packed) == Ok(p)
    ensures 12 <= |packed|
    ensures && p.majorVersion == UnpackU16(packed[0..2]) && p.minorVersion == UnpackU16(packed[2..4])
            && p.unused == UnpackU32(packed[4..8]) && p.namedResourceCount == UnpackU32(packed[8..12])
    ensures var run := NamedTablesAt(packed, 12, p.namedResourceCount, []);
            run.Ok? && run.value.tables == p.namedResourceTables && run.value.end == 12 + NamedSpan(p.namedResourceTables)
    ensures p.resources == []
  {
    var run, count := DecodeTablesParts(packed, p);
    NamedTablesAtAdvance(packed, 12, p.namedResourceCount, [], run);
    assert NamedSpan([]) == 0;
  }

  /** The resource count and the resource entries that `DecodeTables`
      reads after the named entries. */
  lemma DecodeTablesEntries(packed: Bytes, p: PAK)
    requires PAK.DecodeTables(packed) == Ok(p)
    ensures var e := 12 + NamedSpan(p.namedResourceTables);
            && 0 <= e && EntryStart(e + 4, p.resourceCount) <= |packed|
            && p.resourceCount == UnpackU32(packed[e..e + 4])
            && |p.resourceTables| == p.resourceCount
            && forall k :: 0 <= k < p.resourceCount ==> p.resourceTables[k] == ResourceTableAt(packed, e + 4, k)
  {
    var run, count := DecodeTablesParts(packed, p);
    NamedTablesAtAdvance(packed, 12, p.namedResourceCount, [], run);
    assert NamedSpan([]) == 0;
    var e := 12 + NamedSpan(p.namedResourceTables);
    assert e == run.end;
    assert ResourceTablesAt(packed, e + 4, count) == Ok(p.resourceTables);
  }

  /** The values `DecodeTables` binds on its way to success. */
  lemma DecodeTablesParts(packed: Bytes, p: PAK) returns (run: NamedRun, count: nat)
    requires PAK.DecodeTables(packed) == Ok(p)
    ensures 12 <= |packed|
    ensures NamedTablesAt(packed, 12, UnpackU32(packed[8..12]), []) == Ok(run)
    ensures run.end + 4 <= |packed| && count == UnpackU32(packed[run.end..run.end + 4])
    ensures ResourceTablesAt(packed, run.end + 4, count) == Ok(p.resourceTables)
    ensures p == PAK(UnpackU16(packed[0..2]), UnpackU16(packed[2..4]), UnpackU32(packed[4..8]), UnpackU32(packed[8..12]),
                     run.tables, count, p.resourceTables, [])
  {
    run := NamedTablesAt(packed, 12, UnpackU32(packed[8..12]), []).value;
    var countBytes := Slice(packed, run.end, run.end + 4);
    assert |countBytes| == 4;
    assert countBytes == packed[run.end..run.end + 4];
    count := UnpackU32(countBytes);
  }

  /** What `from_packed` gives: the tables as `DecodeTables` reads them,
      and payload k decoded, with the class its entry selects, from the
      bytes entry k points at. */
  lemma PakDecodeLayout(packed: Bytes, p: PAK)
    requires PAK.Decode(packed) == Ok(p)
    ensures 12 <= |packed|
    ensures && p.majorVersion == UnpackU16(packed[0..2]) && p.minorVersion == UnpackU16(packed[2..4])
            && p.unused == UnpackU32(packed[4..8]) && p.namedResourceCount == UnpackU32(packed[8..12])
    ensures var run := NamedTablesAt(packed, 12, p.namedResourceCount, []);
            run.Ok? && run.value.tables == p.namedResourceTables && run.value.end == 12 + NamedSpan(p.namedResourceTables)
    ensures var e := 12 + NamedSpan(p.namedResourceTables);
            && 0 <= e && EntryStart(e + 4, p.resourceCount) <= |packed|
            && p.resourceCount == UnpackU32(packed[e..e + 4])
            && |p.resourceTables| == p.resourceCount
            && forall k :: 0 <= k < p.resourceCount ==> p.resourceTables[k] == ResourceTableAt(packed, e + 4, k)
    ensures |p.resources| == |p.resourceTables|
    ensures forall k :: 0 <= k < |p.resources| ==> DecodeResource(packed, p.resourceTables[k]) == Ok(p.resources[k])
  {
    var q := DecodeParts(packed, p);
    DecodeTablesLayout(packed, q);
    ResourcesAtDecoded(packed, q.resourceTables);
  }

  /** `Decode` is `DecodeTables` with the payloads that `ResourcesAt`
      decodes put in. */
  lemma DecodeParts(packed: Bytes, p: PAK) returns (q: PAK)
    requires PAK.Decode(packed) == Ok(p)
    ensures PAK.DecodeTables(packed) == Ok(q)
    ensures ResourcesAt(packed, q.resourceTables) == Ok(p.resources)
    ensures && p.majorVersion == q.majorVersion && p.minorVersion == q.minorVersion && p.unused == q.unused
            && p.namedResourceCount == q.namedResourceCount && p.namedResourceTables == q.namedResourceTables
            && p.resourceCount == q.resourceCount && p.resourceTables == q.resourceTables
  {
    q := PAK.DecodeTables(packed).value;
  }
}
