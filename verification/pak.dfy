/** The PAK archive (pak.py:96-245): a 12-byte header, the named resource
    entries, the resource count and the 20-byte resource entries, 0x00 bytes
    up to a multiple of 32, then every resource payload padded with 0xFF to a
    multiple of 32. */
module Pak {
  import opened Results
  import opened Binary
  import opened Sequences
  import opened PakRecords
  import Strg

  /** The asset ID that is decoded as a scan tree whatever its type tag. */
  const ScanTreeAssetId := 0x95B61279

  /** The class `from_packed` decodes a payload with. */
  datatype AssetClass = DgrpAsset | DumbAsset | HintAsset | ScanAsset | StrgAsset | ScanTreeAsset | UnimplementedAsset

  /** The key under which `asset_classes` lists a class, if it does. */
  function AssetClassTag(c: AssetClass): Option<Bytes>
  {
    match c
    case DgrpAsset => Some([0x44, 0x47, 0x52, 0x50])  // "DGRP"
    case DumbAsset => Some([0x44, 0x55, 0x4D, 0x42])  // "DUMB"
    case HintAsset => Some([0x48, 0x49, 0x4E, 0x54])  // "HINT"
    case ScanAsset => Some([0x53, 0x43, 0x41, 0x4E])  // "SCAN"
    case StrgAsset => Some([0x53, 0x54, 0x52, 0x47])  // "STRG"
    case _ => None
  }

  /** The class chosen for an entry: the scan tree for its special asset ID,
      otherwise the class listed under its type tag, otherwise the
      pass-through class. */
  function AssetClassFor(assetId: int, assetType: Bytes): (c: AssetClass)
    ensures c == ScanTreeAsset <==> assetId == ScanTreeAssetId
    ensures c != ScanTreeAsset && c != UnimplementedAsset ==> AssetClassTag(c) == Some(assetType)
    ensures c == UnimplementedAsset ==> forall d :: AssetClassTag(d) != Some(assetType)
  {
    if assetId == ScanTreeAssetId then ScanTreeAsset
    else if Some(assetType) == AssetClassTag(DgrpAsset) then DgrpAsset
    else if Some(assetType) == AssetClassTag(DumbAsset) then DumbAsset
    else if Some(assetType) == AssetClassTag(HintAsset) then HintAsset
    else if Some(assetType) == AssetClassTag(ScanAsset) then ScanAsset
    else if Some(assetType) == AssetClassTag(StrgAsset) then StrgAsset
    else UnimplementedAsset
  }

  /** A decoded payload: raw bytes, a string container, or the bytes of a
      class whose codec is not part of this model (kept with the tag it was
      found under). */
  datatype Resource =
    | Unimplemented(raw: UnimplementedResource)
    | StrgResource(strg: Strg.STRG)
    | Foreign(foreignClass: AssetClass, assetType: Bytes, data: Bytes)
  {
    /** The class this payload is an instance of. */
    function Class(): AssetClass
    {
      match this
      case Unimplemented(_) => UnimplementedAsset
      case StrgResource(_) => StrgAsset
      case Foreign(c, _, _) => c
    }

    /** `new_resource.asset_type`: a class attribute of STRG ("STRG"),
        missing from the pass-through class. */
    function AssetType(): (r: Result<Bytes>)
      ensures r.Err? <==> Unimplemented?
      ensures r.Err? ==> r.error == AttributeError
      ensures StrgResource? ==> Some(r.value) == AssetClassTag(StrgAsset)
    {
      match this
      case Unimplemented(_) => Err(AttributeError)
      case StrgResource(_) => Ok([0x53, 0x54, 0x52, 0x47])
      case Foreign(_, t, _) => Ok(t)
    }

    predicate Packable()
    {
      StrgResource? ==> strg.Packable()
    }

    /** `packed_size`. */
    function PackedSize(): nat
    {
      match this
      case Unimplemented(raw) => raw.PackedSize()
      case StrgResource(s) => s.PackedSize()
      case Foreign(_, _, d) => |d|
    }

    /** `packed()`. */
    function Packed(): (r: Result<Bytes>)
      ensures r.Ok? <==> Packable()
      ensures r.Err? ==> r.error == StructError
      ensures r.Ok? ==> |r.value| == PackedSize()
    {
      match this
      case Unimplemented(raw) => Ok(raw.Packed())
      case StrgResource(s) => s.Packed()
      case Foreign(_, _, d) => Ok(d)
    }
  }

  /** The class chosen for an entry, applied to the `size` bytes at its
      `offset`: only the string decoder can fail; every other class keeps
      the bytes it was given. */
  function DecodeResource(packed: Bytes, table: ResourceTable): (r: Result<Resource>)
    ensures r.Ok? ==> r.value.Class() == AssetClassFor(table.assetId, table.assetType)
    ensures r.Err? ==> AssetClassFor(table.assetId, table.assetType) == StrgAsset
    ensures r.Ok? && !r.value.StrgResource? ==>
              r.value.Packed() == Ok(SignedSlice(packed, table.offset, table.offset + table.size))
  {
    var data := SignedSlice(packed, table.offset, table.offset + table.size);
    var assetClass := AssetClassFor(table.assetId, table.assetType);
    if assetClass == StrgAsset then
      var s :- Strg.STRG.Decode(data);
      Ok(StrgResource(s))
    else if assetClass == UnimplementedAsset then Ok(Unimplemented(UnimplementedResource.FromPacked(data)))
    else Ok(Foreign(assetClass, table.assetType, data))
  }

  // ---------------------------------------------------------------------
  // Decoding (pak.py:123-160)

  /** The named entries read so far and the offset just past them. */
  datatype NamedRun = NamedRun(tables: seq<NamedResourceTable>, end: nat)

  /** After the entries `acc`, `n` more named entries from `offset` on, each
      read from everything after the previous one's name, so each step
      advances by 12 + `name_length`. */
  function NamedTablesAt(packed: Bytes, offset: nat, n: nat, acc: seq<NamedResourceTable>): (r: Result<NamedRun>)
    ensures r.Ok? ==> |r.value.tables| == |acc| + n
    ensures r.Err? ==> r.error == StructError
    decreases n
  {
    if n == 0 then Ok(NamedRun(acc, offset))
    else
      var table :- NamedResourceTable.FromPacked(Drop(packed, offset));
      NamedTablesAt(packed, offset + 12 + table.nameLength, n - 1, acc + [table])
  }

  /** The loop of pak.py:127-132. */
  method ReadNamedTables(packed: Bytes, count: nat) returns (r: Result<NamedRun>)
    ensures r == NamedTablesAt(packed, 12, count, [])
  {
    var offset: nat := 12;
    var tables: seq<NamedResourceTable> := [];
    for i := 0 to count
      invariant NamedTablesAt(packed, 12, count, []) == NamedTablesAt(packed, offset, count - i, tables)
    {
      var table := NamedResourceTable.FromPacked(Drop(packed, offset));
      if table.Err? {
        return Err(table.error);
      }
      var next := offset + 12 + table.value.nameLength;
      assert NamedTablesAt(packed, offset, count - i, tables) == NamedTablesAt(packed, next, count - i - 1, tables + [table.value]);
      tables := tables + [table.value];
      offset := next;
    }
    r := Ok(NamedRun(tables, offset));
  }

  /** Where entry `k` of a table array starting at `start` begins. */
  function EntryStart(start: nat, k: nat): nat
  {
    start + 20 * k
  }

  /** `n` resource entries of 20 bytes from `start` on; the first one that
      runs past the end of the buffer is a `struct.error`. */
  function ResourceTablesAt(packed: Bytes, start: nat, n: nat): (r: Result<seq<ResourceTable>>)
    requires start <= |packed|
    ensures r.Ok? <==> EntryStart(start, n) <= |packed|
    ensures r.Err? ==> r.error == StructError
    ensures r.Ok? ==> |r.value| == n && forall k :: 0 <= k < n ==> r.value[k] == ResourceTableAt(packed, start, k)
  {
    if EntryStart(start, n) <= |packed| then Ok(seq(n, k requires 0 <= k < n => ResourceTableAt(packed, start, k)))
    else Err(StructError)
  }

  /** The resource entry in the 20 bytes at `EntryStart(start, k)`. */
  function ResourceTableAt(packed: Bytes, start: nat, k: nat): (r: ResourceTable)
    requires EntryStart(start, k) + 20 <= |packed|
    ensures ResourceTable.FromPacked(packed[EntryStart(start, k)..EntryStart(start, k) + 20]) == Ok(r)
  {
    ResourceTable.FromPacked(packed[EntryStart(start, k)..EntryStart(start, k) + 20]).value
  }

  /** The loop of pak.py:136-139. */
  method ReadResourceTables(packed: Bytes, start: nat, count: nat) returns (r: Result<seq<ResourceTable>>)
    requires start <= |packed|
    ensures r == ResourceTablesAt(packed, start, count)
  {
    var offset := start;
    var tables: seq<ResourceTable> := [];
    for i := 0 to count
      invariant offset == EntryStart(start, i) <= |packed|
      invariant |tables| == i
      invariant forall k :: 0 <= k < i ==> tables[k] == ResourceTableAt(packed, start, k)
    {
      var table := ResourceTable.FromPacked(Slice(packed, offset, offset + 20));
      if table.Err? {
        EntryStartMonotone(start, i + 1, count);
        return Err(table.error);
      }
      tables := tables + [table.value];
      offset := offset + 20;
    }
    r := Ok(tables);
    assert r.value == ResourceTablesAt(packed, start, count).value;
  }

  lemma EntryStartMonotone(start: nat, k: nat, n: nat)
    requires k <= n
    ensures EntryStart(start, k) <= EntryStart(start, n)
  {
  }

  /** Every entry's payload, in entry order; the first failure is the
      failure of the whole. */
  function ResourcesAt(packed: Bytes, tables: seq<ResourceTable>): (r: Result<seq<Resource>>)
    ensures r.Ok? ==> |r.value| == |tables|
  {
    if tables == [] then Ok([])
    else
      var resource :- DecodeResource(packed, tables[0]);
      Prepend([resource], ResourcesAt(packed, tables[1..]))
  }

  /** The loop of pak.py:143-149. */
  method ReadResources(packed: Bytes, tables: seq<ResourceTable>) returns (r: Result<seq<Resource>>)
    ensures r == ResourcesAt(packed, tables)
  {
    var resources: seq<Resource> := [];
    PrependNothing(ResourcesAt(packed, tables));
    assert tables[0..] == tables;
    for i := 0 to |tables|
      invariant ResourcesAt(packed, tables) == Prepend(resources, ResourcesAt(packed, tables[i..]))
    {
      var resource :- DecodeResource(packed, tables[i]);
      assert tables[i..][1..] == tables[i + 1..];
      PrependPrepend(resources, [resource], ResourcesAt(packed, tables[i + 1..]));
      resources := resources + [resource];
    }
    assert resources + [] == resources;
    r := Ok(resources);
  }

  // ---------------------------------------------------------------------
  // Sizes and encoding (pak.py:162-187)

  /** Σ `packed_size` of the named entries. */
  function NamedTablesSize(ts: seq<NamedResourceTable>): nat
  {
    if ts == [] then 0 else ts[0].PackedSize() + NamedTablesSize(ts[1..])
  }

  /** Σ (12 + `name_length`): how far decoding advances over the entries. */
  function NamedSpan(ts: seq<NamedResourceTable>): int
  {
    if ts == [] then 0 else 12 + ts[0].nameLength + NamedSpan(ts[1..])
  }

  lemma {:induction false} NamedSpanAppend(ts: seq<NamedResourceTable>, t: NamedResourceTable)
    ensures NamedSpan(ts + [t]) == NamedSpan(ts) + 12 + t.nameLength
  {
    if ts != [] {
      assert (ts + [t])[1..] == ts[1..] + [t];
      NamedSpanAppend(ts[1..], t);
    }
  }

  function PackNamedTables(ts: seq<NamedResourceTable>): (r: Bytes)
    requires forall k :: 0 <= k < |ts| ==> ts[k].Packable()
    ensures |r| == NamedTablesSize(ts)
  {
    if ts == [] then [] else ts[0].Packed() + PackNamedTables(ts[1..])
  }

  function PackResourceTables(ts: seq<ResourceTable>): (r: Bytes)
    requires forall k :: 0 <= k < |ts| ==> ts[k].Packable()
    ensures |r| == 20 * |ts|
  {
    if ts == [] then [] else ts[0].Packed() + PackResourceTables(ts[1..])
  }

  /** Σ `packed_size` of the payloads, without their padding. */
  function ResourcesSize(rs: seq<Resource>): nat
  {
    if rs == [] then 0 else rs[0].PackedSize() + ResourcesSize(rs[1..])
  }

  /** Σ of the payload sizes each rounded up to a multiple of 32. */
  function AlignedResourcesSize(rs: seq<Resource>): nat
  {
    if rs == [] then 0 else AlignedSize(rs[0].PackedSize()) + AlignedResourcesSize(rs[1..])
  }

  /** Each payload's `packed()` bytes. */
  function PackedPayloads(rs: seq<Resource>): (r: seq<Bytes>)
    requires forall k :: 0 <= k < |rs| ==> rs[k].Packable()
    ensures |r| == |rs| && forall k :: 0 <= k < |rs| ==> r[k] == rs[k].Packed().value
  {
    seq(|rs|, k requires 0 <= k < |rs| => rs[k].Packed().value)
  }

  /** The padded payloads take `AlignedResourcesSize` bytes. */
  lemma {:induction false} PackedPayloadsSize(rs: seq<Resource>)
    requires forall k :: 0 <= k < |rs| ==> rs[k].Packable()
    ensures AlignedChunksSize(PackedPayloads(rs)) == AlignedResourcesSize(rs)
  {
    if rs != [] {
      var chunks := PackedPayloads(rs);
      assert chunks[1..] == PackedPayloads(rs[1..]);
      assert |chunks[0]| == rs[0].PackedSize();
      PackedPayloadsSize(rs[1..]);
    }
  }

  /** Each entry with its offset moved by `delta`. */
  function OffsetsShifted(ts: seq<ResourceTable>, delta: int): (r: seq<ResourceTable>)
    ensures |r| == |ts|
    ensures forall k :: 0 <= k < |ts| ==> r[k] == ts[k].(offset := ts[k].offset + delta)
  {
    seq(|ts|, k requires 0 <= k < |ts| => ts[k].(offset := ts[k].offset + delta))
  }

  /** The entries after inserting `t` at `index`, those after it moved by
      `size`. */
  function TablesInserted(ts: seq<ResourceTable>, index: nat, t: ResourceTable, size: int): (r: seq<ResourceTable>)
    ensures |r| == |ts| + 1
  {
    Take(ts, index) + [t] + OffsetsShifted(Skip(ts, index), size)
  }

  /** The entries after dropping the one at `index`, those after it moved
      back by `size`. */
  function TablesRemoved(ts: seq<ResourceTable>, index: nat, size: int): (r: seq<ResourceTable>)
    ensures index < |ts| ==> |r| == |ts| - 1
  {
    Take(ts, index) + OffsetsShifted(Skip(ts, index + 1), -size)
  }

  // ---------------------------------------------------------------------
  // Lookup by asset ID (pak.py:117-121, 189-190)

  /** `__post_init__`'s map from asset ID to entry index, filled in index
      order, so a later entry with the same ID overwrites an earlier one. */
  function AssetIdIndexMap(ts: seq<ResourceTable>): (m: map<int, nat>)
    ensures forall id :: id in m ==> m[id] < |ts| && ts[m[id]].assetId == id
    ensures forall k :: 0 <= k < |ts| ==> ts[k].assetId in m
  {
    if ts == [] then map[]
    else AssetIdIndexMap(ts[..|ts| - 1])[ts[|ts| - 1].assetId := |ts| - 1]
  }

  /** The loop of pak.py:118-120. */
  method AssetIdToIndexMap(ts: seq<ResourceTable>) returns (m: map<int, nat>)
    ensures m == AssetIdIndexMap(ts)
  {
    m := map[];
    for index := 0 to |ts|
      invariant m == AssetIdIndexMap(ts[..index])
    {
      assert ts[..index + 1][..index] == ts[..index];
      m := m[ts[index].assetId := index];
    }
    assert ts[..|ts|] == ts;
  }

  /** The map sends an ID to the last entry carrying it; an ID no entry
      carries is not in the map. */
  lemma {:induction false} AssetIdIndexMapLast(ts: seq<ResourceTable>, id: int)
    ensures id !in AssetIdIndexMap(ts) <==> forall k :: 0 <= k < |ts| ==> ts[k].assetId != id
    ensures id in AssetIdIndexMap(ts) ==> forall j :: AssetIdIndexMap(ts)[id] < j < |ts| ==> ts[j].assetId != id
  {
    if ts != [] {
      var init := ts[..|ts| - 1];
      AssetIdIndexMapLast(init, id);
      if ts[|ts| - 1].assetId != id && id in AssetIdIndexMap(ts) {
        forall j | AssetIdIndexMap(ts)[id] < j < |ts| ensures ts[j].assetId != id {
          if j < |ts| - 1 {
            assert ts[j] == init[j];
          }
        }
      }
    }
  }

  // ---------------------------------------------------------------------
  // The container

  datatype PAK = PAK(
    majorVersion: int,
    minorVersion: int,
    unused: int,
    namedResourceCount: int,
    namedResourceTables: seq<NamedResourceTable>,
    resourceCount: int,
    resourceTables: seq<ResourceTable>,
    resources: seq<Resource>)
  {
    /** `struct.pack` accepts every field that `packed()` writes, and every
        payload can be packed. */
    predicate Packable()
    {
      && IsU16(majorVersion) && IsU16(minorVersion) && IsU32(unused) && IsU32(namedResourceCount)
      && (forall k :: 0 <= k < |namedResourceTables| ==> namedResourceTables[k].Packable())
      && IsU32(resourceCount)
      && (forall k :: 0 <= k < |resourceTables| ==> resourceTables[k].Packable())
      && (forall k :: 0 <= k < |resources| ==> resources[k].Packable())
    }

    /** `packed_content_before_resources_size`. */
    function ContentBeforeResourcesSize(): nat
    {
      2 + 2 + 4 + 4 + NamedTablesSize(namedResourceTables) + 4 + 20 * |resourceTables|
    }

    /** `packed_padding_before_resources_size`. */
    function PaddingBeforeResourcesSize(): (p: nat)
      ensures p < 32 && (ContentBeforeResourcesSize() + p) % 32 == 0
    {
      PaddingTo32(ContentBeforeResourcesSize())
    }

    /** `packed_size`: the payloads are counted without their padding. */
    function PackedSize(): nat
    {
      ContentBeforeResourcesSize() + PaddingBeforeResourcesSize() + ResourcesSize(resources)
    }

    /** `packed()`: the stored header, entries and count as they are, 0x00
        up to a multiple of 32, then each payload padded with 0xFF;
        `struct.error` when a field does not fit. */
    function Packed(): (r: Result<Bytes>)
      ensures r.Ok? <==> Packable()
      ensures r.Err? ==> r.error == StructError
      ensures r.Ok? ==> |r.value| == ContentBeforeResourcesSize() + PaddingBeforeResourcesSize()
                                     + AlignedResourcesSize(resources)
    {
      if !Packable() then Err(StructError)
      else
        PackedPayloadsSize(resources);
        Ok(TablesBytes() + Fill(0, PaddingBeforeResourcesSize()) + JoinAligned(PackedPayloads(resources)))
    }

    /** Everything `packed()` writes before the padding. */
    function TablesBytes(): (r: Bytes)
      requires Packable()
      ensures |r| == ContentBeforeResourcesSize()
    {
      HeaderBytes() + PackNamedTables(namedResourceTables) + PackU32(resourceCount) + PackResourceTables(resourceTables)
    }

    /** The four stored header fields (">HHII"). */
    function HeaderBytes(): (r: Bytes)
      requires Packable()
      ensures |r| == 12
      ensures r[0..2] == PackU16(majorVersion) && r[2..4] == PackU16(minorVersion)
      ensures r[4..8] == PackU32(unused) && r[8..12] == PackU32(namedResourceCount)
    {
      PackU16(majorVersion) + PackU16(minorVersion) + PackU32(unused) + PackU32(namedResourceCount)
    }

    /** What `from_packed` computes: the entries, then every payload. */
    static function Decode(packed: Bytes): (r: Result<PAK>)
    {
      var p :- DecodeTables(packed);
      var resources :- ResourcesAt(packed, p.resourceTables);
      Ok(p.(resources := resources))
    }

    /** Everything `from_packed` reads before the payloads: the header,
        `named_resource_count` named entries, the resource count that
        follows them (which must be four bytes), and that many 20-byte
        entries. */
    static function DecodeTables(packed: Bytes): (r: Result<PAK>)
      ensures r.Ok? ==> r.value.resources == [] && |r.value.resourceTables| == r.value.resourceCount
      ensures r.Ok? ==> |r.value.namedResourceTables| == r.value.namedResourceCount
      ensures r.Err? ==> r.error == StructError
    {
      if |packed| < 12 then Err(StructError)
      else
        var namedResourceCount := UnpackU32(packed[8..12]);
        var run :- NamedTablesAt(packed, 12, namedResourceCount, []);
        var countBytes := Slice(packed, run.end, run.end + 4);
        if |countBytes| != 4 then Err(StructError)
        else
          var resourceCount := UnpackU32(countBytes);
          var tables :- ResourceTablesAt(packed, run.end + 4, resourceCount);
          Ok(PAK(UnpackU16(packed[0..2]), UnpackU16(packed[2..4]), UnpackU32(packed[4..8]), namedResourceCount,
                 run.tables, resourceCount, tables, []))
    }

    /** `from_packed` (pak.py:123-160), with its three loops. */
    static method FromPacked(packed: Bytes) returns (r: Result<PAK>)
      ensures r == Decode(packed)
    {
      if |packed| < 12 {
        return Err(StructError);
      }
      var namedResourceCount := UnpackU32(packed[8..12]);
      var run :- ReadNamedTables(packed, namedResourceCount);
      var offset := run.end;
      var countBytes := Slice(packed, offset, offset + 4);
      if |countBytes| != 4 {
        return Err(StructError);
      }
      var resourceCount := UnpackU32(countBytes);
      offset := offset + 4;
      var resourceTables :- ReadResourceTables(packed, offset, resourceCount);
      var resources :- ReadResources(packed, resourceTables);
      r := Ok(PAK(UnpackU16(packed[0..2]), UnpackU16(packed[2..4]), UnpackU32(packed[4..8]), namedResourceCount,
                  run.tables, resourceCount, resourceTables, resources));
    }

    /** The `_asset_ID_to_index_map` that `__post_init__` builds. */
    function AssetIndices(): map<int, nat>
    {
      AssetIdIndexMap(resourceTables)
    }

    /** `get_resource_by_asset_ID`: the payload at the index of the last
        entry with that ID. */
    function GetResourceByAssetId(assetId: int): (r: Result<Resource>)
      ensures r.Err? ==> r.error == KeyNotFound || r.error == IndexOutOfRange
    {
      var indices := AssetIndices();
      if assetId !in indices then Err(KeyNotFound)
      else if indices[assetId] < |resources| then Ok(resources[indices[assetId]])
      else Err(IndexOutOfRange)
    }

    // -------------------------------------------------------------------
    // Edits (pak.py:192-245)

    /** The offset `with_resource_inserted` gives the new entry: the end of
        the last entry when inserting at `resource_count`, otherwise the
        offset of the entry now at `index`. */
    function InsertionOffset(index: nat): (r: Result<int>)
      ensures r.Err? ==> r.error == IndexOutOfRange
      ensures r.Err? <==> if index == resourceCount then resourceTables == [] else |resourceTables| <= index
    {
      if index == resourceCount then
        if resourceTables == [] then Err(IndexOutOfRange)
        else
          var last := resourceTables[|resourceTables| - 1];
          Ok(last.offset + last.size)
      else if index < |resourceTables| then Ok(resourceTables[index].offset)
      else Err(IndexOutOfRange)
    }

    /** What `with_resource_inserted` computes. */
    function Inserted(index: nat, assetId: int, newResource: Resource): (r: Result<PAK>)
      ensures r.Err? ==> r.error == IndexOutOfRange || r.error == AttributeError
    {
      var offset :- InsertionOffset(index);
      var assetType :- newResource.AssetType();
      var size := newResource.PackedSize();
      var newTable := ResourceTable(false, assetType, assetId, size, offset);
      Ok(this.(resourceCount := resourceCount + 1,
               resourceTables := TablesInserted(resourceTables, index, newTable, size),
               resources := Take(resources, index) + [newResource] + Skip(resources, index)))
    }

    /** `with_resource_inserted` (pak.py:192-216), with its loop. */
    method WithResourceInserted(index: nat, assetId: int, newResource: Resource) returns (r: Result<PAK>)
      ensures r == Inserted(index, assetId, newResource)
    {
      var offset :- InsertionOffset(index);
      var assetType :- newResource.AssetType();
      var size := newResource.PackedSize();
      var newTable := ResourceTable(false, assetType, assetId, size, offset);
      var newTables := Take(resourceTables, index) + [newTable];
      var later := Skip(resourceTables, index);
      for i := 0 to |later|
        invariant newTables == Take(resourceTables, index) + [newTable] + OffsetsShifted(later[..i], size)
      {
        assert OffsetsShifted(later[..i + 1], size) == OffsetsShifted(later[..i], size) + [later[i].(offset := later[i].offset + size)];
        newTables := newTables + [later[i].(offset := later[i].offset + size)];
      }
      assert later[..|later|] == later;
      assert newTables == TablesInserted(resourceTables, index, newTable, size);
      r := Ok(this.(resourceCount := resourceCount + 1, resourceTables := newTables,
                    resources := Take(resources, index) + [newResource] + Skip(resources, index)));
    }

    /** `with_resource_appended`: insertion at `resource_count`. */
    function Appended(assetId: int, newResource: Resource): (r: Result<PAK>)
      ensures r.Err? ==> r.error == IndexOutOfRange || r.error == AttributeError
    {
      Inserted(if resourceCount < 0 then 0 else resourceCount, assetId, newResource)
    }

    /** What `with_resource_removed` computes. */
    function Removed(index: nat): (r: Result<PAK>)
      ensures r.Err? ==> r.error == IndexOutOfRange
    {
      if |resources| <= index then Err(IndexOutOfRange)
      else
        var size: int := resources[index].PackedSize();
        Ok(this.(resourceCount := resourceCount - 1,
                 resourceTables := TablesRemoved(resourceTables, index, size),
                 resources := Take(resources, index) + Skip(resources, index + 1)))
    }

    /** `with_resource_removed` (pak.py:221-234), with its loop. */
    method WithResourceRemoved(index: nat) returns (r: Result<PAK>)
      ensures r == Removed(index)
    {
      if |resources| <= index {
        return Err(IndexOutOfRange);
      }
      var size: int := resources[index].PackedSize();
      var newTables := Take(resourceTables, index);
      var later := Skip(resourceTables, index + 1);
      for i := 0 to |later|
        invariant newTables == Take(resourceTables, index) + OffsetsShifted(later[..i], -size)
      {
        assert OffsetsShifted(later[..i + 1], -size) == OffsetsShifted(later[..i], -size) + [later[i].(offset := later[i].offset - size)];
        newTables := newTables + [later[i].(offset := later[i].offset - size)];
      }
      assert later[..|later|] == later;
      assert newTables == TablesRemoved(resourceTables, index, size);
      r := Ok(this.(resourceCount := resourceCount - 1, resourceTables := newTables,
                    resources := Take(resources, index) + Skip(resources, index + 1)));
    }

    /** `with_resource_replaced`: remove the payload at `index`, then insert
        the new one there under the entry's asset ID. */
    function Replaced(index: nat, newResource: Resource): (r: Result<PAK>)
      ensures r.Err? ==> r.error == IndexOutOfRange || r.error == AttributeError
    {
      if |resourceTables| <= index then Err(IndexOutOfRange)
      else
        var removed :- Removed(index);
        removed.Inserted(index, resourceTables[index].assetId, newResource)
    }

    /** `with_resource_replaced_by_asset_ID`. */
    function ReplacedByAssetId(assetId: int, newResource: Resource): (r: Result<PAK>)
      ensures r.Err? ==> r.error == KeyNotFound || r.error == IndexOutOfRange || r.error == AttributeError
    {
      var indices := AssetIndices();
      if assetId !in indices then Err(KeyNotFound)
      else
        var removed :- Removed(indices[assetId]);
        removed.Inserted(indices[assetId], assetId, newResource)
    }

    /** `with_resource_removed_by_asset_ID` as written: the map lookup runs
        first, then the call passes one argument too many. */
    function RemovedByAssetIdAsWritten(assetId: int): (r: Result<PAK>)
      ensures r.Err? && (r.error == KeyNotFound || r.error == TypeError)
    {
      if assetId !in AssetIndices() then Err(KeyNotFound) else Err(TypeError)
    }

    /** `with_resource_removed_by_asset_ID` as evidently intended: removal
        at the index the map gives. */
    function RemovedByAssetId(assetId: int): (r: Result<PAK>)
      ensures r.Err? ==> r.error == KeyNotFound || r.error == IndexOutOfRange
    {
      var indices := AssetIndices();
      if assetId !in indices then Err(KeyNotFound) else Removed(indices[assetId])
    }
  }
}
