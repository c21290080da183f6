/** Properties of the PAK model: lookup by asset ID and the shape of each
    edit. */
module PakFacts {
  import opened Results
  import opened Binary
  import opened Sequences
  import opened PakRecords
  import opened Pak

  // ---------------------------------------------------------------------
  // Lookup by asset ID

  /** The map sends an ID to the last entry carrying it. */
  lemma AssetIndexIsLast(ts: seq<ResourceTable>, id: int, k: nat)
    requires k < |ts| && ts[k].assetId == id
    requires forall j :: k < j < |ts| ==> ts[j].assetId != id
    ensures id in AssetIdIndexMap(ts) && AssetIdIndexMap(ts)[id] == k
  {
    AssetIdIndexMapLast(ts, id);
  }

  /** `get_resource_by_asset_ID` raises `KeyError` exactly when no entry
      carries the ID. */
  lemma GetResourceByAssetIdMissing(p: PAK, id: int)
    ensures p.GetResourceByAssetId(id) == Err(KeyNotFound)
            <==> forall k :: 0 <= k < |p.resourceTables| ==> p.resourceTables[k].assetId != id
  {
    AssetIdIndexMapLast(p.resourceTables, id);
  }

  /** Otherwise it returns the payload at the index of the last entry with
      that ID, or raises `IndexError` when there is no payload there. */
  lemma GetResourceByAssetIdLast(p: PAK, id: int, k: nat)
    requires k < |p.resourceTables| && p.resourceTables[k].assetId == id
    requires forall j :: k < j < |p.resourceTables| ==> p.resourceTables[j].assetId != id
    ensures p.GetResourceByAssetId(id) == if k < |p.resources| then Ok(p.resources[k]) else Err(IndexOutOfRange)
  {
    AssetIndexIsLast(p.resourceTables, id, k);
  }

  // ---------------------------------------------------------------------
  // Entry sequences with shifted offsets

  /** Entry `k` after inserting `t` at `i` and moving the later offsets by
      `delta`. */
  lemma TablesInsertedAt(ts: seq<ResourceTable>, i: nat, t: ResourceTable, delta: int, k: nat)
    requires i <= |ts| && k <= |ts|
    ensures TablesInserted(ts, i, t, delta)[k]
            == if k < i then ts[k] else if k == i then t else ts[k - 1].(offset := ts[k - 1].offset + delta)
  {
    IndexOfSplice(ts[..i], t, OffsetsShifted(ts[i..], delta), k);
  }

  /** Entry `k` after dropping entry `i` and moving the later offsets by
      `delta` back. */
  lemma TablesRemovedAt(ts: seq<ResourceTable>, i: nat, delta: int, k: nat)
    requires i < |ts| && k < |ts| - 1
    ensures TablesRemoved(ts, i, delta)[k] == if k < i then ts[k] else ts[k + 1].(offset := ts[k + 1].offset - delta)
  {
  }

  /** Dropping entry `i` with the later offsets moved back by `oldSize`,
      then inserting `t` there with them moved forward by `newSize`, keeps
      every earlier entry and moves every later one by the difference. */
  lemma TablesReplacedAt(ts: seq<ResourceTable>, i: nat, t: ResourceTable, oldSize: int, newSize: int, k: nat)
    requires i < |ts| && k < |ts| && k != i
    ensures var u := TablesInserted(TablesRemoved(ts, i, oldSize), i, t, newSize);
            && |u| == |ts|
            && u[k] == if k < i then ts[k] else ts[k].(offset := ts[k].offset + (newSize - oldSize))
  {
    if k < i {
      TablesReplacedBefore(ts, i, t, oldSize, newSize, k);
    } else {
      TablesReplacedAfter(ts, i, t, oldSize, newSize, k);
    }
  }

  /** The earlier entries of a replacement. */
  lemma TablesReplacedBefore(ts: seq<ResourceTable>, i: nat, t: ResourceTable, oldSize: int, newSize: int, k: nat)
    requires k < i < |ts|
    ensures TablesInserted(TablesRemoved(ts, i, oldSize), i, t, newSize)[k] == ts[k]
  {
    TablesRemovedAt(ts, i, oldSize, k);
    TablesInsertedAt(TablesRemoved(ts, i, oldSize), i, t, newSize, k);
  }

  /** The later entries of a replacement. */
  lemma TablesReplacedAfter(ts: seq<ResourceTable>, i: nat, t: ResourceTable, oldSize: int, newSize: int, k: nat)
    requires i < k < |ts|
    ensures TablesInserted(TablesRemoved(ts, i, oldSize), i, t, newSize)[k]
            == ts[k].(offset := ts[k].offset + (newSize - oldSize))
  {
    TablesRemovedAt(ts, i, oldSize, k - 1);
    TablesInsertedAt(TablesRemoved(ts, i, oldSize), i, t, newSize, k);
  }

  /** Dropping the entry just inserted, with the same size, gives the
      entries back. */
  lemma TablesInsertThenRemove(ts: seq<ResourceTable>, i: nat, t: ResourceTable, size: int)
    requires i <= |ts|
    ensures TablesRemoved(TablesInserted(ts, i, t, size), i, size) == ts
  {
    var u := TablesInserted(ts, i, t, size);
    SpliceParts(ts[..i], t, OffsetsShifted(ts[i..], size));
    assert Take(u, i) == ts[..i];
    assert Skip(u, i + 1) == OffsetsShifted(ts[i..], size);
    ShiftedBack(ts[i..], size);
    assert ts[..i] + ts[i..] == ts;
  }

  /** Moving offsets by `delta` and back gives the entries back. */
  lemma ShiftedBack(ts: seq<ResourceTable>, delta: int)
    ensures OffsetsShifted(OffsetsShifted(ts, delta), -delta) == ts
  {
    var u := OffsetsShifted(OffsetsShifted(ts, delta), -delta);
    forall k | 0 <= k < |ts| ensures u[k] == ts[k] {
    }
  }

  // ---------------------------------------------------------------------
  // Insertion

  /** `with_resource_inserted` fails exactly when there is no entry to take
      the offset from, or the new payload has no `asset_type`. */
  lemma InsertedFails(p: PAK, index: nat, assetId: int, r: Resource)
    ensures p.Inserted(index, assetId, r).Err?
            <==> (if index == p.resourceCount then p.resourceTables == [] else |p.resourceTables| <= index)
                 || r.Unimplemented?
  {
  }

  /** On success only the count, the entries and the payloads change; the
      count grows by one. */
  lemma InsertedKeepsRest(p: PAK, index: nat, assetId: int, r: Resource)
    requires p.Inserted(index, assetId, r).Ok?
    ensures var q := p.Inserted(index, assetId, r).value;
            && q.majorVersion == p.majorVersion && q.minorVersion == p.minorVersion && q.unused == p.unused
            && q.namedResourceCount == p.namedResourceCount && q.namedResourceTables == p.namedResourceTables
            && q.resourceCount == p.resourceCount + 1
  {
  }

  /** The new entry: not compressed, typed by the payload, sized by its
      unpadded `packed_size`, at the offset the entry previously at `index`
      had (or just past the last entry when appending). */
  lemma InsertedEntry(p: PAK, index: nat, assetId: int, r: Resource)
    requires index <= |p.resourceTables|
    requires p.Inserted(index, assetId, r).Ok?
    ensures var q := p.Inserted(index, assetId, r).value;
            && |q.resourceTables| == |p.resourceTables| + 1
            && q.resourceTables[index] == ResourceTable(false, r.AssetType().value, assetId, r.PackedSize(),
                                                        p.InsertionOffset(index).value)
  {
    var t := ResourceTable(false, r.AssetType().value, assetId, r.PackedSize(), p.InsertionOffset(index).value);
    TablesInsertedAt(p.resourceTables, index, t, r.PackedSize(), index);
  }

  /** The entries before `index` are kept; those from `index` on move one
      place up with their offsets moved by the new payload's size. */
  lemma InsertedEntries(p: PAK, index: nat, assetId: int, r: Resource, k: nat)
    requires index <= |p.resourceTables| && k < |p.resourceTables|
    requires p.Inserted(index, assetId, r).Ok?
    ensures var q := p.Inserted(index, assetId, r).value;
            && |q.resourceTables| == |p.resourceTables| + 1
            && (k < index ==> q.resourceTables[k] == p.resourceTables[k])
            && (index <= k ==> q.resourceTables[k + 1]
                                 == p.resourceTables[k].(offset := p.resourceTables[k].offset + r.PackedSize()))
  {
    var t := ResourceTable(false, r.AssetType().value, assetId, r.PackedSize(), p.InsertionOffset(index).value);
    if k < index {
      TablesInsertedAt(p.resourceTables, index, t, r.PackedSize(), k);
    } else {
      TablesInsertedAt(p.resourceTables, index, t, r.PackedSize(), k + 1);
    }
  }

  /** The new payload is placed at `index` among the old ones. */
  lemma InsertedResources(p: PAK, index: nat, assetId: int, r: Resource)
    requires index <= |p.resources|
    requires p.Inserted(index, assetId, r).Ok?
    ensures p.Inserted(index, assetId, r).value.resources == p.resources[..index] + [r] + p.resources[index..]
  {
  }

  /** Appending to a PAK without entries fails: the offset would come from
      the last entry. */
  lemma AppendedToEmptyFails(p: PAK, assetId: int, r: Resource)
    requires p.resourceTables == [] && 0 <= p.resourceCount
    ensures p.Appended(assetId, r) == Err(IndexOutOfRange)
  {
  }

  /** Appending to a consistent PAK with entries adds the new entry and
      payload at the end, the entry starting where the last one ends. */
  lemma AppendedShape(p: PAK, assetId: int, r: Resource)
    requires p.resourceCount == |p.resourceTables| == |p.resources| && p.resourceTables != [] && !r.Unimplemented?
    ensures p.Appended(assetId, r).Ok?
    ensures var last := p.resourceTables[|p.resourceTables| - 1];
            var q := p.Appended(assetId, r).value;
            && q.resourceTables
               == p.resourceTables + [ResourceTable(false, r.AssetType().value, assetId, r.PackedSize(), last.offset + last.size)]
            && q.resources == p.resources + [r]
            && q.resourceCount == p.resourceCount + 1
  {
    assert p.resourceTables[|p.resourceTables|..] == [];
    assert p.resources[|p.resources|..] == [];
  }

  // ---------------------------------------------------------------------
  // Removal

  /** `with_resource_removed` raises `IndexError` exactly when there is no
      payload at `index`. */
  lemma RemovedFails(p: PAK, index: nat)
    ensures p.Removed(index).Err? <==> |p.resources| <= index
    ensures p.Removed(index).Err? ==> p.Removed(index).error == IndexOutOfRange
  {
  }

  /** On success the count drops by one, the payload at `index` is gone,
      and only the count, the entries and the payloads change. */
  lemma RemovedKeepsRest(p: PAK, index: nat)
    requires index < |p.resources|
    ensures var q := p.Removed(index).value;
            && q.majorVersion == p.majorVersion && q.minorVersion == p.minorVersion && q.unused == p.unused
            && q.namedResourceCount == p.namedResourceCount && q.namedResourceTables == p.namedResourceTables
            && q.resourceCount == p.resourceCount - 1
            && q.resources == p.resources[..index] + p.resources[index + 1..]
  {
  }

  /** The entries before `index` are kept, the one at `index` is dropped,
      and the later ones move one place down with their offsets moved back
      by the removed payload's size. */
  lemma RemovedEntries(p: PAK, index: nat, k: nat)
    requires index < |p.resources| && index < |p.resourceTables| && k < |p.resourceTables| - 1
    ensures var q := p.Removed(index).value;
            && |q.resourceTables| == |p.resourceTables| - 1
            && (k < index ==> q.resourceTables[k] == p.resourceTables[k])
            && (index <= k ==> q.resourceTables[k]
                                 == p.resourceTables[k + 1].(offset := p.resourceTables[k + 1].offset - p.resources[index].PackedSize()))
  {
    TablesRemovedAt(p.resourceTables, index, p.resources[index].PackedSize(), k);
  }

  /** Removing what was just inserted gives back the original PAK. */
  lemma InsertThenRemove(p: PAK, index: nat, assetId: int, r: Resource)
    requires index <= |p.resourceTables| && index <= |p.resources|
    requires p.Inserted(index, assetId, r).Ok?
    ensures p.Inserted(index, assetId, r).value.Removed(index) == Ok(p)
  {
    var size := r.PackedSize();
    var t := ResourceTable(false, r.AssetType().value, assetId, size, p.InsertionOffset(index).value);
    var q := p.Inserted(index, assetId, r).value;
    assert q == p.(resourceCount := p.resourceCount + 1,
                   resourceTables := TablesInserted(p.resourceTables, index, t, size),
                   resources := Take(p.resources, index) + [r] + Skip(p.resources, index));
    assert q.resources[index] == r;
    TablesInsertThenRemove(p.resourceTables, index, t, size);
    InsertThenDrop(p.resources, index, r);
  }

  // ---------------------------------------------------------------------
  // Replacement

  /** A PAK whose count, entries and payloads agree. */
  predicate Consistent(p: PAK)
  {
    p.resourceCount == |p.resourceTables| == |p.resources|
  }

  /** In a consistent PAK of n entries, `with_resource_replaced` succeeds
      exactly when `index` names an entry, the new payload has an
      `asset_type`, and the last entry is not the only one: replacing the
      last entry reinserts it at the new count, which takes its offset from
      the entry before it. */
  lemma ReplacedFails(p: PAK, index: nat, r: Resource)
    requires Consistent(p)
    ensures p.Replaced(index, r).Ok?
            <==> index < |p.resources| && !r.Unimplemented? && (index == |p.resources| - 1 ==> 2 <= |p.resources|)
  {
    if index < |p.resources| {
      var q := p.Removed(index).value;
      assert |q.resourceTables| == |p.resourceTables| - 1;
    }
  }

  /** A successful replacement keeps the count and the other payloads, and
      puts the new payload at `index`. */
  lemma ReplacedResources(p: PAK, index: nat, r: Resource)
    requires Consistent(p) && p.Replaced(index, r).Ok?
    ensures var q := p.Replaced(index, r).value;
            && q.resourceCount == p.resourceCount && q.namedResourceTables == p.namedResourceTables
            && q.resources == p.resources[index := r]
  {
    ReplacedFails(p, index, r);
    var q := p.Removed(index).value;
    assert q.resources == p.resources[..index] + p.resources[index + 1..];
    assert q.resources[..index] == p.resources[..index];
    assert q.resources[index..] == p.resources[index + 1..];
    SpliceIsUpdate(p.resources, index, r);
  }

  /** The entry at `index` keeps its asset ID and takes the new payload's
      type and size. */
  lemma ReplacedEntry(p: PAK, index: nat, r: Resource)
    requires Consistent(p) && p.Replaced(index, r).Ok?
    ensures var t := p.Replaced(index, r).value.resourceTables[index];
            && |p.Replaced(index, r).value.resourceTables| == |p.resourceTables|
            && t.assetId == p.resourceTables[index].assetId
            && t.assetType == r.AssetType().value && t.size == r.PackedSize() && !t.compressed
  {
    ReplacedFails(p, index, r);
    var q := p.Removed(index).value;
    InsertedEntry(q, index, p.resourceTables[index].assetId, r);
  }

  /** Entries before `index` are kept, and those after it move by the
      difference between the new and the old payload sizes. */
  lemma ReplacedEntries(p: PAK, index: nat, r: Resource, k: nat)
    requires Consistent(p) && p.Replaced(index, r).Ok? && k < |p.resourceTables| && k != index
    ensures var ts := p.Replaced(index, r).value.resourceTables;
            var delta := r.PackedSize() - p.resources[index].PackedSize();
            && |ts| == |p.resourceTables|
            && (k < index ==> ts[k] == p.resourceTables[k])
            && (index < k ==> ts[k] == p.resourceTables[k].(offset := p.resourceTables[k].offset + delta))
  {
    ReplacedFails(p, index, r);
    var t := ReplacedTables(p, index, r);
    TablesReplacedAt(p.resourceTables, index, t, p.resources[index].PackedSize(), r.PackedSize(), k);
  }

  /** The entries after a replacement: those after the removal, with the
      new entry `t` inserted at `index`. */
  lemma ReplacedTables(p: PAK, index: nat, r: Resource) returns (t: ResourceTable)
    requires Consistent(p) && p.Replaced(index, r).Ok?
    ensures p.Replaced(index, r).value.resourceTables
            == TablesInserted(TablesRemoved(p.resourceTables, index, p.resources[index].PackedSize()), index, t, r.PackedSize())
  {
    var q := p.Removed(index).value;
    var id := p.resourceTables[index].assetId;
    assert p.Replaced(index, r) == q.Inserted(index, id, r);
    RemovedTables(p, index);
    t := InsertedTables(q, index, id, r);
  }

  /** The entries after a removal. */
  lemma RemovedTables(p: PAK, index: nat)
    requires index < |p.resources|
    ensures p.Removed(index).Ok?
    ensures p.Removed(index).value.resourceTables == TablesRemoved(p.resourceTables, index, p.resources[index].PackedSize())
  {
  }

  /** The entries after an insertion, `t` being the new one. */
  lemma InsertedTables(q: PAK, index: nat, id: int, r: Resource) returns (t: ResourceTable)
    requires q.Inserted(index, id, r).Ok?
    ensures q.Inserted(index, id, r).value.resourceTables == TablesInserted(q.resourceTables, index, t, r.PackedSize())
  {
    t := ResourceTable(false, r.AssetType().value, id, r.PackedSize(), q.InsertionOffset(index).value);
  }

  /** `with_resource_replaced_by_asset_ID` raises `KeyError` exactly when no
      entry carries the ID. */
  lemma ReplacedByAssetIdMissing(p: PAK, id: int, r: Resource)
    ensures p.ReplacedByAssetId(id, r) == Err(KeyNotFound)
            <==> forall k :: 0 <= k < |p.resourceTables| ==> p.resourceTables[k].assetId != id
  {
    AssetIdIndexMapLast(p.resourceTables, id);
  }

  /** Otherwise it is `with_resource_replaced` at the last entry with the
      ID. */
  lemma ReplacedByAssetIdLast(p: PAK, id: int, r: Resource, k: nat)
    requires k < |p.resourceTables| && p.resourceTables[k].assetId == id
    requires forall j :: k < j < |p.resourceTables| ==> p.resourceTables[j].assetId != id
    ensures p.ReplacedByAssetId(id, r) == p.Replaced(k, r)
  {
    AssetIndexIsLast(p.resourceTables, id, k);
  }

  // ---------------------------------------------------------------------
  // Removal by asset ID

  /** As written, removal by asset ID never succeeds: an ID that is present
      reaches the call with one argument too many. */
  lemma RemovedByAssetIdAsWrittenFails(p: PAK, id: int)
    ensures p.RemovedByAssetIdAsWritten(id).Err?
    ensures p.RemovedByAssetIdAsWritten(id).error == TypeError
            <==> exists k :: 0 <= k < |p.resourceTables| && p.resourceTables[k].assetId == id
  {
    AssetIdIndexMapLast(p.resourceTables, id);
  }

  /** The intended removal by asset ID removes the last entry with the ID,
      and so succeeds where the written one fails. */
  lemma RemovedByAssetIdLast(p: PAK, id: int, k: nat)
    requires k < |p.resourceTables| && p.resourceTables[k].assetId == id
    requires forall j :: k < j < |p.resourceTables| ==> p.resourceTables[j].assetId != id
    ensures p.RemovedByAssetId(id) == p.Removed(k)
    ensures k < |p.resources| ==> p.RemovedByAssetId(id).Ok? && p.RemovedByAssetIdAsWritten(id) == Err(TypeError)
  {
    AssetIndexIsLast(p.resourceTables, id, k);
  }
}
