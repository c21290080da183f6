/** The variable-length tables of a STRG payload (strg.py:53-134): the name
    table, which maps NUL-terminated ASCII names to string indices, and the
    per-language string table of UTF-16BE strings reached through offsets. */
module StrgTables {
  import opened Results
  import opened Binary
  import opened Sequences
  import opened StrgRecords

  // =====================================================================
  // Name table: ">II" count and size, `count` name entries, then the names

  datatype NameTable = NameTable(count: int, size: int, entries: seq<NameEntry>, names: seq<Bytes>)
  {
    predicate Packable()
    {
      && IsU32(count) && IsU32(size)
      && forall k :: 0 <= k < |entries| ==> entries[k].Packable()
    }

    /** `packed_size`, which is the length of `packed()`. */
    function PackedSize(): nat
    {
      8 + 8 * |entries| + NamesSize(names)
    }

    /** The stored count and size (never recomputed), the entries, then every
        name followed by a NUL. */
    function Packed(): (r: Bytes)
      requires Packable()
      ensures |r| == PackedSize()
      ensures r[..8] == PackU32(count) + PackU32(size)
      ensures r[8 + 8 * |entries|..] == PackNames(names)
    {
      PackU32(count) + PackU32(size) + PackEntries(entries) + PackNames(names)
    }

    /** `get_string_index_for_name`: the string index of the first entry whose
        name is `name`. */
    function GetStringIndexForName(name: Bytes): (r: Result<int>)
      ensures name !in names ==> r == Err(ValueNotFound)
      ensures r.Ok? ==> exists i :: 0 <= i < |names| && i < |entries| && names[i] == name
                          && r.value == entries[i].stringIndex
                          && forall j :: 0 <= j < i ==> names[j] != name
      ensures name in names && |names| <= |entries| ==> r.Ok?
      ensures r.Err? && name in names ==> r.error == IndexOutOfRange
    {
      match FirstIndexOf(names, name)
      case None => Err(ValueNotFound)
      case Some(i) => if i < |entries| then Ok(entries[i].stringIndex) else Err(IndexOutOfRange)
    }

    /** What `from_packed` computes: the header, `count` 8-byte entries right
        after it, and for every entry the NUL-terminated name at byte
        8 + offset. */
    static function Decode(packed: Bytes): (r: Result<NameTable>)
    {
      if |packed| < 8 then Err(StructError)
      else
        var count := UnpackU32(packed[0..4]);
        var size := UnpackU32(packed[4..8]);
        if |packed| < 8 + 8 * count then Err(StructError)
        else
          var entries := EntriesAt(packed, count);
          var names :- NamesAt(packed, entries);
          Ok(NameTable(count, size, entries, names))
    }

    /** `from_packed` (strg.py:62-79): the header, then its two loops. */
    static method FromPacked(packed: Bytes) returns (r: Result<NameTable>)
      ensures r == Decode(packed)
    {
      if |packed| < 8 {
        return Err(StructError);
      }
      var count := UnpackU32(packed[0..4]);
      var size := UnpackU32(packed[4..8]);
      var entries :- ReadNameEntries(packed, count);
      var names :- ReadNames(packed, entries);
      r := Ok(NameTable(count, size, entries, names));
    }
  }

  /** The loop of strg.py:66-70: `count` 8-byte entries after the header. */
  method ReadNameEntries(packed: Bytes, count: nat) returns (r: Result<seq<NameEntry>>)
    requires 8 <= |packed|
    ensures r.Err? <==> |packed| < 8 + 8 * count
    ensures r.Err? ==> r.error == StructError
    ensures r.Ok? ==> 8 + 8 * count <= |packed| && r.value == EntriesAt(packed, count)
  {
    var offset := 8;
    var entries: seq<NameEntry> := [];
    for i := 0 to count
      invariant offset == 8 + 8 * i <= |packed|
      invariant |entries| == i
      invariant forall k :: 0 <= k < i ==> entries[k] == NameEntry.FromPacked(packed[8 + 8 * k..16 + 8 * k]).value
    {
      var entry := NameEntry.FromPacked(Slice(packed, offset, offset + 8));
      if entry.Err? {
        return Err(entry.error);
      }
      entries := entries + [entry.value];
      offset := offset + 8;
    }
    r := Ok(entries);
  }

  /** The loop of strg.py:72-77: for each entry, the bytes from 8 + its
      offset up to the first NUL. */
  method ReadNames(packed: Bytes, entries: seq<NameEntry>) returns (r: Result<seq<Bytes>>)
    ensures r == NamesAt(packed, entries)
  {
    var names: seq<Bytes> := [];
    for i := 0 to |entries|
      invariant |names| == i
      invariant forall k :: 0 <= k < i ==> NameAt(packed, entries[k].offset) == Some(names[k])
    {
      var name := NameAt(packed, entries[i].offset);
      if name.None? {
        assert NamesAt(packed, entries).Err?;
        return Err(ValueNotFound);
      }
      names := names + [name.value];
    }
    NamesAtAll(packed, entries, names);
    r := Ok(names);
  }

  /** When every entry's name is found, `NamesAt` gives exactly those names. */
  lemma NamesAtAll(packed: Bytes, entries: seq<NameEntry>, names: seq<Bytes>)
    requires |names| == |entries|
    requires forall k :: 0 <= k < |entries| ==> NameAt(packed, entries[k].offset) == Some(names[k])
    ensures NamesAt(packed, entries) == Ok(names)
  {
    assert names == seq(|entries|, k requires 0 <= k < |entries| => NameAt(packed, entries[k].offset).value);
  }

  /** The first `n` 8-byte name entries after the 8-byte header. */
  function EntriesAt(packed: Bytes, n: nat): (r: seq<NameEntry>)
    requires 8 + 8 * n <= |packed|
    ensures |r| == n
    ensures forall k :: 0 <= k < n ==> r[k].Packable() && r[k].Packed() == packed[8 + 8 * k..16 + 8 * k]
  {
    var r := seq(n, k requires 0 <= k < n => NameEntry.FromPacked(packed[8 + 8 * k..16 + 8 * k]).value);
    assert forall k :: 0 <= k < n ==> r[k].Packed() == packed[8 + 8 * k..16 + 8 * k] by {
      forall k | 0 <= k < n ensures r[k].Packed() == packed[8 + 8 * k..16 + 8 * k] {
        var slot := packed[8 + 8 * k..16 + 8 * k];
        NameEntryBytesRoundTrip(slot);
        assert r[k] == NameEntry.FromPacked(slot).value;
      }
    }
    r
  }

  /** The name that starts at byte 8 + `offset` and runs up to the first NUL,
      or None when no NUL follows. */
  function NameAt(packed: Bytes, offset: nat): (r: Option<Bytes>)
    ensures r.Some? ==> 8 + offset + |r.value| < |packed|
                        && packed[8 + offset..8 + offset + |r.value|] == r.value
                        && packed[8 + offset + |r.value|] == 0
                        && 0 !in r.value
    ensures r.None? <==> forall j :: 8 + offset <= j < |packed| ==> packed[j] != 0
  {
    var rest := Drop(packed, 8 + offset);
    match IndexOfNul(rest, 0)
    case None =>
      assert forall j :: 8 + offset <= j < |packed| ==> packed[j] == rest[j - (8 + offset)];
      None
    case Some(n) => Some(rest[..n])
  }

  /** The names of all entries; ValueError when one has no NUL after it. */
  function NamesAt(packed: Bytes, entries: seq<NameEntry>): (r: Result<seq<Bytes>>)
    ensures r.Err? <==> exists k :: 0 <= k < |entries| && NameAt(packed, entries[k].offset).None?
    ensures r.Err? ==> r.error == ValueNotFound
    ensures r.Ok? ==> |r.value| == |entries|
    ensures r.Ok? ==> forall k :: 0 <= k < |entries| ==> NameAt(packed, entries[k].offset) == Some(r.value[k])
  {
    if exists k :: 0 <= k < |entries| && NameAt(packed, entries[k].offset).None? then Err(ValueNotFound)
    else Ok(seq(|entries|, k requires 0 <= k < |entries| => NameAt(packed, entries[k].offset).value))
  }

  function NamesSize(names: seq<Bytes>): nat
  {
    if names == [] then 0 else |names[0]| + 1 + NamesSize(names[1..])
  }

  function PackEntries(entries: seq<NameEntry>): (r: Bytes)
    requires forall k :: 0 <= k < |entries| ==> entries[k].Packable()
    ensures |r| == 8 * |entries|
  {
    if entries == [] then [] else entries[0].Packed() + PackEntries(entries[1..])
  }

  function PackNames(names: seq<Bytes>): (r: Bytes)
    ensures |r| == NamesSize(names)
  {
    if names == [] then [] else names[0] + [0] + PackNames(names[1..])
  }

  /** What decoding a name table establishes: one entry and one name per
      counted entry; each entry re-encodes to its 8-byte slot after the
      header; each name is the NUL-free run of bytes at 8 + its offset, ended
      by a NUL. */
  lemma {:induction false} NameTableDecodeLayout(packed: Bytes)
    requires NameTable.Decode(packed).Ok?
    ensures var t := NameTable.Decode(packed).value;
      && |t.entries| == |t.names| == t.count
      && 8 + 8 * t.count <= |packed|
      && t.count == UnpackU32(packed[0..4]) && t.size == UnpackU32(packed[4..8])
      && (forall k :: 0 <= k < t.count ==> t.entries[k].Packed() == packed[8 + 8 * k..16 + 8 * k])
      && (forall k :: 0 <= k < t.count ==>
            var start := 8 + t.entries[k].offset;
            && start + |t.names[k]| < |packed|
            && packed[start..start + |t.names[k]|] == t.names[k]
            && packed[start + |t.names[k]|] == 0
            && 0 !in t.names[k])
  {
    var t := NameTable.Decode(packed).value;
    forall k | 0 <= k < t.count
      ensures NameAt(packed, t.entries[k].offset) == Some(t.names[k])
    {
    }
  }

  /** Decoding fails with ValueError when some entry's name has no NUL after
      it (the header and entries being readable). */
  lemma NameTableMissingTerminator(packed: Bytes, k: nat)
    requires 8 <= |packed| && 8 + 8 * UnpackU32(packed[0..4]) <= |packed|
    requires k < UnpackU32(packed[0..4])
    requires forall j :: 8 + EntriesAt(packed, UnpackU32(packed[0..4]))[k].offset <= j < |packed| ==> packed[j] != 0
    ensures NameTable.Decode(packed) == Err(ValueNotFound)
  {
    var count := UnpackU32(packed[0..4]);
    assert NameAt(packed, EntriesAt(packed, count)[k].offset).None?;
  }

  /** The packed name table is `8 + 8 * |entries| + sum(|name| + 1)` bytes. */
  lemma {:induction false} NamesSizeSum(names: seq<Bytes>)
    ensures NamesSize(names) == |names| + TotalLength(names)
  {
    if names != [] {
      NamesSizeSum(names[1..]);
    }
  }

  function TotalLength(names: seq<Bytes>): nat
  {
    if names == [] then 0 else |names[0]| + TotalLength(names[1..])
  }

  // =====================================================================
  // String table: `count` u32 offsets, then the strings as UTF-16BE, each
  // followed by 00 00, emitted in ascending (offset, string) order

  type String = seq<CodeUnit>

  /** One (offset, string) pair of `zip(offsets, strings)`. */
  type Placed = (int, String)

  datatype StringTable = StringTable(count: int, offsets: seq<int>, strings: seq<String>)
  {
    /** What a decoded table looks like: one string per offset, `count` each. */
    predicate Valid()
    {
      count == |offsets| == |strings|
    }

    /** `struct.pack(f">{count}I", *offsets)` accepts the offsets. */
    predicate Packable()
    {
      count == |offsets| && forall k :: 0 <= k < |offsets| ==> IsU32(offsets[k])
    }

    /** `zip(offsets, strings)`, which stops at the shorter of the two. */
    function Pairs(): (r: seq<Placed>)
      ensures |r| == Min(|offsets|, |strings|)
      ensures forall k :: 0 <= k < |r| ==> r[k] == (offsets[k], strings[k])
    {
      seq(Min(|offsets|, |strings|), k requires 0 <= k < Min(|offsets|, |strings|) => (offsets[k], strings[k]))
    }

    /** `packed_size`, which is the length of `packed()`. */
    function PackedSize(): nat
    {
      4 * |offsets| + PairsSize(Pairs())
    }

    /** The offsets as u32, then the strings sorted by (offset, string). */
    function Packed(): (r: Bytes)
      requires Packable()
      ensures |r| == PackedSize()
      ensures r[..4 * count] == PackOffsets(offsets)
      ensures r[4 * count..] == PackStrings(SortPairs(Pairs()))
    {
      PackOffsets(offsets) + PackStrings(SortPairs(Pairs()))
    }

    /** What `from_packed` computes: `stringCount` u32 offsets at the start,
        and for each offset the string that begins there and ends before the
        first 00 00 pair. */
    static function Decode(packed: Bytes, stringCount: nat): (r: Result<StringTable>)
    {
      if |packed| < 4 * stringCount then Err(StructError)
      else
        var offsets := UnpackOffsets(packed, stringCount);
        var strings :- StringsAt(packed, offsets);
        Ok(StringTable(stringCount, offsets, strings))
    }

    /** `from_packed` (strg.py:102-112), with its loop over the offsets. */
    static method FromPacked(packed: Bytes, stringCount: nat) returns (r: Result<StringTable>)
      ensures r == Decode(packed, stringCount)
    {
      if |packed| < 4 * stringCount {
        return Err(StructError);
      }
      var offsets := UnpackOffsets(packed, stringCount);
      var strings :- ReadStrings(packed, offsets);
      r := Ok(StringTable(stringCount, offsets, strings));
    }

    /** What `with_string_replaced` computes: offsets up to and including
        `index` kept, later offsets moved by the change in encoded length,
        and the string at `index` replaced. */
    function StringReplaced(index: nat, newString: String): (r: Result<StringTable>)
      ensures r.Err? <==> index >= |strings|
      ensures r.Err? ==> r.error == IndexOutOfRange
    {
      if index >= |strings| then Err(IndexOutOfRange)
      else
        var sizeDiff := 2 * |newString| - 2 * |strings[index]|;
        Ok(StringTable(count,
                       Take(offsets, index + 1) + Shift(Skip(offsets, index + 1), sizeDiff),
                       strings[..index] + [newString] + strings[index + 1..]))
    }

    /** `with_string_replaced` (strg.py:124-134), with its loop over the
        later offsets. */
    method WithStringReplaced(index: nat, newString: String) returns (r: Result<StringTable>)
      ensures r == StringReplaced(index, newString)
    {
      var newOffsets := Take(offsets, index + 1);
      if index >= |strings| {
        return Err(IndexOutOfRange);
      }
      var sizeDiff := |EncodeUtf16Be(newString)| - |EncodeUtf16Be(strings[index])|;
      var later := Skip(offsets, index + 1);
      for k := 0 to |later|
        invariant newOffsets == Take(offsets, index + 1) + Shift(later[..k], sizeDiff)
      {
        newOffsets := newOffsets + [later[k] + sizeDiff];
      }
      assert later[..|later|] == later;
      r := Ok(StringTable(count, newOffsets, strings[..index] + [newString] + strings[index + 1..]));
    }
  }

  /** The loop of strg.py:106-111: the string at each offset in turn. */
  method ReadStrings(packed: Bytes, offsets: seq<nat>) returns (r: Result<seq<String>>)
    ensures r == StringsAt(packed, offsets)
  {
    var strings: seq<String> := [];
    assert offsets[0..] == offsets;
    PrependNothing(StringsAt(packed, offsets));
    for i := 0 to |offsets|
      invariant StringsAt(packed, offsets) == Prepend(strings, StringsAt(packed, offsets[i..]))
    {
      var s := StringAt(packed, offsets[i]);
      StringsAtStep(packed, offsets, i);
      if s.Err? {
        return Err(s.error);
      }
      PrependPrepend(strings, [s.value], StringsAt(packed, offsets[i + 1..]));
      strings := strings + [s.value];
    }
    assert offsets[|offsets|..] == [];
    assert strings + [] == strings;
    r := Ok(strings);
  }

  /** Every offset moved by `delta`. */
  function Shift(offsets: seq<int>, delta: int): (r: seq<int>)
    ensures |r| == |offsets|
    ensures forall k :: 0 <= k < |offsets| ==> r[k] == offsets[k] + delta
  {
    seq(|offsets|, k requires 0 <= k < |offsets| => offsets[k] + delta)
  }

  /** The first `n` big-endian u32 values of `packed`. */
  function UnpackOffsets(packed: Bytes, n: nat): (r: seq<nat>)
    requires 4 * n <= |packed|
    ensures |r| == n
    ensures forall k :: 0 <= k < n ==> r[k] == UnpackU32(packed[4 * k..4 * k + 4])
  {
    seq(n, k requires 0 <= k < n => UnpackU32(packed[4 * k..4 * k + 4]))
  }

  /** `struct.pack(f">{n}I", *offsets)`. */
  function PackOffsets(offsets: seq<int>): (r: Bytes)
    requires forall k :: 0 <= k < |offsets| ==> IsU32(offsets[k])
    ensures |r| == 4 * |offsets|
  {
    if offsets == [] then [] else PackU32(offsets[0]) + PackOffsets(offsets[1..])
  }

  /** Offset `k` is packed into bytes 4k to 4k + 4. */
  lemma {:induction false} PackOffsetsAt(offsets: seq<int>, k: nat)
    requires forall j :: 0 <= j < |offsets| ==> IsU32(offsets[j])
    requires k < |offsets|
    ensures PackOffsets(offsets)[4 * k..4 * k + 4] == PackU32(offsets[k])
  {
    if k > 0 {
      PackOffsetsAt(offsets[1..], k - 1);
      var r := PackOffsets(offsets);
      assert r == PackU32(offsets[0]) + PackOffsets(offsets[1..]);
      assert r[4 * k..4 * k + 4] == PackOffsets(offsets[1..])[4 * (k - 1)..4 * (k - 1) + 4];
    }
  }

  /** Reading back packed offsets gives the offsets. */
  lemma OffsetsRoundTrip(offsets: seq<int>)
    requires forall k :: 0 <= k < |offsets| ==> IsU32(offsets[k])
    ensures UnpackOffsets(PackOffsets(offsets), |offsets|) == offsets
  {
    var b := PackOffsets(offsets);
    forall k | 0 <= k < |offsets| ensures UnpackOffsets(b, |offsets|)[k] == offsets[k] {
      PackOffsetsAt(offsets, k);
    }
  }

  /** Packing the offsets read from a buffer gives back the bytes they were
      read from. */
  lemma OffsetsBytesRoundTrip(packed: Bytes, n: nat)
    requires 4 * n <= |packed|
    ensures PackOffsets(UnpackOffsets(packed, n)) == packed[..4 * n]
  {
    var offsets := UnpackOffsets(packed, n);
    var b := PackOffsets(offsets);
    forall i | 0 <= i < 4 * n ensures b[i] == packed[i] {
      var k := i / 4;
      PackOffsetsAt(offsets, k);
      PackUnpackU32(packed[4 * k..4 * k + 4]);
      assert b[i] == b[4 * k..4 * k + 4][i - 4 * k];
    }
  }

  /** The string at byte `offset`: everything before the first 00 00 pair at
      or after it, decoded as UTF-16BE. */
  function StringAt(packed: Bytes, offset: nat): (r: Result<String>)
    ensures r.Err? ==> r.error == ValueNotFound || r.error == UnicodeDecodeError
  {
    var rest := Drop(packed, offset);
    match IndexOfDoubleNul(rest, 0)
    case None => Err(ValueNotFound)
    case Some(n) => DecodeUtf16Be(rest[..n])
  }

  function StringsAt(packed: Bytes, offsets: seq<nat>): (r: Result<seq<String>>)
    ensures r.Ok? ==> |r.value| == |offsets|
  {
    if offsets == [] then Ok([])
    else
      var s :- StringAt(packed, offsets[0]);
      var rest :- StringsAt(packed, offsets[1..]);
      Ok([s] + rest)
  }

  /** One turn of the loop over the offsets: the string at `offsets[i]`, then
      the rest. */
  lemma StringsAtStep(packed: Bytes, offsets: seq<nat>, i: nat)
    requires i < |offsets|
    ensures StringAt(packed, offsets[i]).Err? ==>
              StringsAt(packed, offsets[i..]) == Err(StringAt(packed, offsets[i]).error)
    ensures StringAt(packed, offsets[i]).Ok? ==>
              StringsAt(packed, offsets[i..]) == Prepend([StringAt(packed, offsets[i]).value], StringsAt(packed, offsets[i + 1..]))
  {
    assert offsets[i..][0] == offsets[i];
    assert offsets[i..][1..] == offsets[i + 1..];
  }

  /** The bytes a string occupies in a packed table: its encoding and 00 00. */
  function StringSize(s: String): nat { 2 * |s| + 2 }

  function PairsSize(ps: seq<Placed>): nat
  {
    if ps == [] then 0 else StringSize(ps[0].1) + PairsSize(ps[1..])
  }

  function PackStrings(ps: seq<Placed>): (r: Bytes)
    ensures |r| == PairsSize(ps)
  {
    if ps == [] then [] else EncodeUtf16Be(ps[0].1) + [0, 0] + PackStrings(ps[1..])
  }

  // ---------------------------------------------------------------------
  // `sorted(zip(offsets, strings))`: tuples compare by offset, then by string

  /** Python's `<=` on strings, on code units: lexicographic, a prefix first. */
  predicate StringLe(a: String, b: String)
  {
    a == [] || (b != [] && (a[0] < b[0] || (a[0] == b[0] && StringLe(a[1..], b[1..]))))
  }

  predicate PlacedLe(a: Placed, b: Placed)
  {
    a.0 < b.0 || (a.0 == b.0 && StringLe(a.1, b.1))
  }

  predicate Ascending(ps: seq<Placed>)
  {
    forall k :: 0 < k < |ps| ==> PlacedLe(ps[k - 1], ps[k])
  }

  lemma {:induction false} StringLeTotal(a: String, b: String)
    ensures StringLe(a, b) || StringLe(b, a)
  {
    if a != [] && b != [] && a[0] == b[0] {
      StringLeTotal(a[1..], b[1..]);
    }
  }

  /** `p` placed before the first pair it does not exceed. */
  function InsertPlaced(p: Placed, ps: seq<Placed>): (r: seq<Placed>)
    ensures |r| == |ps| + 1
    ensures multiset(r) == multiset(ps) + multiset{p}
    ensures PairsSize(r) == StringSize(p.1) + PairsSize(ps)
  {
    if ps == [] then [p]
    else if PlacedLe(p, ps[0]) then [p] + ps
    else
      var r := [ps[0]] + InsertPlaced(p, ps[1..]);
      assert ps == [ps[0]] + ps[1..];
      r
  }

  lemma {:induction false} InsertPlacedAscending(p: Placed, ps: seq<Placed>)
    requires Ascending(ps)
    ensures Ascending(InsertPlaced(p, ps))
    ensures InsertPlaced(p, ps)[0] == p || InsertPlaced(p, ps)[0] == ps[0]
  {
    if ps != [] && !PlacedLe(p, ps[0]) {
      StringLeTotal(p.1, ps[0].1);
      assert Ascending(ps[1..]) by {
        forall k | 0 < k < |ps[1..]| ensures PlacedLe(ps[1..][k - 1], ps[1..][k]) {
          assert ps[1..][k - 1] == ps[k] && ps[1..][k] == ps[k + 1];
        }
      }
      InsertPlacedAscending(p, ps[1..]);
      var tail := InsertPlaced(p, ps[1..]);
      var r := [ps[0]] + tail;
      assert InsertPlaced(p, ps) == r;
      forall k | 0 < k < |r| ensures PlacedLe(r[k - 1], r[k]) {
        if k > 1 {
          assert r[k - 1] == tail[k - 2] && r[k] == tail[k - 1];
        }
      }
    }
  }

  /** `sorted`: the pairs in ascending order (an insertion sort). */
  function SortPairs(ps: seq<Placed>): (r: seq<Placed>)
    ensures |r| == |ps|
    ensures multiset(r) == multiset(ps)
    ensures PairsSize(r) == PairsSize(ps)
  {
    if ps == [] then []
    else
      assert ps == [ps[0]] + ps[1..];
      InsertPlaced(ps[0], SortPairs(ps[1..]))
  }

  /** `sorted` gives an ascending permutation of its input. */
  lemma {:induction false} SortPairsAscending(ps: seq<Placed>)
    ensures Ascending(SortPairs(ps)) && multiset(SortPairs(ps)) == multiset(ps)
  {
    if ps != [] {
      SortPairsAscending(ps[1..]);
      InsertPlacedAscending(ps[0], SortPairs(ps[1..]));
    }
  }
}

module StrgTableFacts {
  import opened Results
  import opened Binary
  import opened Sequences
  import opened StrgTables

  function StringsSize(ss: seq<String>): nat
  {
    if ss == [] then 0 else StringSize(ss[0]) + StringsSize(ss[1..])
  }

  lemma {:induction false} PairsSizeIsStringsSize(t: StringTable)
    requires t.Valid()
    ensures PairsSize(t.Pairs()) == StringsSize(t.strings)
  {
    PairsSizeOfZip(t.offsets, t.strings);
  }

  lemma {:induction false} PairsSizeOfZip(os: seq<int>, ss: seq<String>)
    requires |os| == |ss|
    ensures PairsSize(StringTable(|os|, os, ss).Pairs()) == StringsSize(ss)
  {
    var ps := StringTable(|os|, os, ss).Pairs();
    if os != [] {
      PairsSizeOfZip(os[1..], ss[1..]);
      assert ps[1..] == StringTable(|os| - 1, os[1..], ss[1..]).Pairs();
    }
  }

  lemma {:induction false} StringsSizeUpdate(ss: seq<String>, i: nat, s: String)
    requires i < |ss|
    ensures StringsSize(ss[i := s]) == StringsSize(ss) - StringSize(ss[i]) + StringSize(s)
  {
    if i > 0 {
      StringsSizeUpdate(ss[1..], i - 1, s);
      assert ss[i := s][1..] == ss[1..][i - 1 := s];
    }
  }

  /** `with_string_replaced(index, s)` on a decoded table: offsets up to and
      including `index` are kept, every later offset moves by exactly the
      change in encoded length, only string `index` changes, the count is
      kept, and the packed size changes by that same amount. */
  lemma StringReplacedShape(t: StringTable, index: nat, s: String)
    requires t.Valid() && index < |t.strings|
    ensures t.StringReplaced(index, s).Ok?
    ensures var u := t.StringReplaced(index, s).value;
            var delta := 2 * |s| - 2 * |t.strings[index]|;
      && u.Valid() && u.count == t.count
      && u.offsets[..index + 1] == t.offsets[..index + 1]
      && (forall k :: index < k < |t.offsets| ==> u.offsets[k] == t.offsets[k] + delta)
      && u.strings == t.strings[index := s]
      && u.PackedSize() == t.PackedSize() + delta
  {
    var u := t.StringReplaced(index, s).value;
    var delta := 2 * |s| - 2 * |t.strings[index]|;
    ShiftedAfter(t.offsets, index, delta);
    assert u.offsets == Take(t.offsets, index + 1) + Shift(Skip(t.offsets, index + 1), delta);
    SpliceIsUpdate(t.strings, index, s);
    assert u.strings == t.strings[index := s];
    StringReplacedSize(t, u, index, s);
  }

  /** Offsets up to `i` kept and the later ones moved by `delta`. */
  lemma ShiftedAfter(os: seq<int>, i: nat, delta: int)
    requires i < |os|
    ensures var v := Take(os, i + 1) + Shift(Skip(os, i + 1), delta);
      && |v| == |os| && v[..i + 1] == os[..i + 1]
      && forall k :: i < k < |os| ==> v[k] == os[k] + delta
  {
    var v := Take(os, i + 1) + Shift(Skip(os, i + 1), delta);
    assert v[..i + 1] == os[..i + 1];
    forall k | i < k < |os|
      ensures v[k] == os[k] + delta
    {
      assert v[k] == Shift(Skip(os, i + 1), delta)[k - i - 1];
    }
  }

  /** Replacing one string changes the packed size by the change in its
      encoded length. */
  lemma StringReplacedSize(t: StringTable, u: StringTable, index: nat, s: String)
    requires t.Valid() && u.Valid() && index < |t.strings|
    requires |u.offsets| == |t.offsets| && u.strings == t.strings[index := s]
    ensures u.PackedSize() == t.PackedSize() + (2 * |s| - 2 * |t.strings[index]|)
  {
    PairsSizeIsStringsSize(t);
    PairsSizeIsStringsSize(u);
    StringsSizeUpdate(t.strings, index, s);
  }

  /** Replacing the same position twice keeps only the second string, and
      the offsets move by the total change. */
  lemma StringReplacedTwice(t: StringTable, index: nat, s1: String, s2: String)
    requires t.Valid() && index < |t.strings|
    ensures t.StringReplaced(index, s1).Ok?
    ensures t.StringReplaced(index, s1).value.StringReplaced(index, s2) == t.StringReplaced(index, s2)
  {
    var u := t.StringReplaced(index, s1).value;
    var d1 := 2 * |s1| - 2 * |t.strings[index]|;
    var d2 := 2 * |s2| - 2 * |t.strings[index]|;
    var head, tail := t.offsets[..index + 1], t.offsets[index + 1..];
    assert u.offsets == head + Shift(tail, d1);
    assert u.offsets[..index + 1] == head;
    assert u.offsets[index + 1..] == Shift(tail, d1);
    assert u.strings[index] == s1;
    var a := u.StringReplaced(index, s2).value;
    var b := t.StringReplaced(index, s2).value;
    assert a.offsets == head + Shift(Shift(tail, d1), d2 - d1);
    assert Shift(Shift(tail, d1), d2 - d1) == Shift(tail, d2);
    assert a.offsets == b.offsets;
    assert a.strings == b.strings;
  }

  /** `s` sits at byte `offset` of `packed`, encoded as UTF-16BE, and the
      first 00 00 pair at or after `offset` follows it directly. */
  predicate EncodedAt(packed: Bytes, offset: nat, s: String)
  {
    && offset + 2 * |s| + 1 < |packed|
    && packed[offset..offset + 2 * |s|] == EncodeUtf16Be(s)
    && DoubleNulAt(packed, offset + 2 * |s|)
    && forall j :: offset <= j < offset + 2 * |s| ==> !DoubleNulAt(packed, j)
  }

  /** The string that `StringAt` reads is laid out at its offset. */
  lemma StringAtLayout(packed: Bytes, offset: nat)
    requires StringAt(packed, offset).Ok?
    ensures EncodedAt(packed, offset, StringAt(packed, offset).value)
  {
    var rest := Drop(packed, offset);
    var n := IndexOfDoubleNul(rest, 0).value;
    var s := StringAt(packed, offset).value;
    Utf16BytesRoundTrip(rest[..n]);
    assert |s| * 2 == n;
    assert rest == packed[offset..];
    forall j | offset <= j < offset + n ensures !DoubleNulAt(packed, j) {
      assert !DoubleNulAt(rest, j - offset);
    }
  }

  /** Conversely, a string laid out at an offset is what `StringAt` reads
      there. */
  lemma StringAtFromLayout(packed: Bytes, offset: nat, s: String)
    requires EncodedAt(packed, offset, s)
    ensures StringAt(packed, offset) == Ok(s)
  {
    var rest := Drop(packed, offset);
    var n := 2 * |s|;
    assert rest == packed[offset..];
    assert DoubleNulAt(rest, n);
    forall j | 0 <= j < n ensures !DoubleNulAt(rest, j) {
      assert !DoubleNulAt(packed, offset + j);
    }
    assert IndexOfDoubleNul(rest, 0) == Some(n);
    assert rest[..n] == EncodeUtf16Be(s);
    Utf16RoundTrip(s);
  }

  lemma {:induction false} StringsAtLayout(packed: Bytes, offsets: seq<nat>)
    requires StringsAt(packed, offsets).Ok?
    ensures forall k :: 0 <= k < |offsets| ==> StringAt(packed, offsets[k]) == Ok(StringsAt(packed, offsets).value[k])
  {
    if offsets != [] {
      StringsAtLayout(packed, offsets[1..]);
      var ss := StringsAt(packed, offsets).value;
      assert ss[1..] == StringsAt(packed, offsets[1..]).value;
      forall k | 0 < k < |offsets| ensures StringAt(packed, offsets[k]) == Ok(ss[k]) {
        assert offsets[1..][k - 1] == offsets[k];
      }
    }
  }

  /** What decoding a string table establishes: `stringCount` offsets read as
      big-endian u32 from the front, and for each of them a string whose
      UTF-16BE encoding sits at that offset, up to the first 00 00 pair. */
  lemma StringTableDecodeLayout(packed: Bytes, stringCount: nat)
    requires StringTable.Decode(packed, stringCount).Ok?
    ensures var t := StringTable.Decode(packed, stringCount).value;
      && t.Valid() && t.count == stringCount && 4 * stringCount <= |packed|
      && (forall k :: 0 <= k < stringCount ==> t.offsets[k] == UnpackU32(packed[4 * k..4 * k + 4]))
      && (forall k :: 0 <= k < stringCount ==> t.offsets[k] >= 0 && EncodedAt(packed, t.offsets[k], t.strings[k]))
  {
    var offsets := UnpackOffsets(packed, stringCount);
    var strings := StringsAt(packed, offsets).value;
    StringsAtLayout(packed, offsets);
    forall k | 0 <= k < stringCount ensures EncodedAt(packed, offsets[k], strings[k]) {
      StringAtLayout(packed, offsets[k]);
    }
  }

  /** `packed()` of a table is `4 * count + sum(2 * |s| + 2)` bytes long. */
  lemma StringTablePackedSize(t: StringTable)
    requires t.Packable() && t.Valid()
    ensures |t.Packed()| == 4 * t.count + StringsSize(t.strings)
  {
    PairsSizeIsStringsSize(t);
  }

  /** `packed()` of a table starts with its offsets as u32, in index order. */
  lemma StringTablePackedOffsets(t: StringTable)
    requires t.Packable()
    ensures forall k :: 0 <= k < t.count ==> t.Packed()[4 * k..4 * k + 4] == PackU32(t.offsets[k])
  {
    var b := t.Packed();
    forall k | 0 <= k < t.count ensures b[4 * k..4 * k + 4] == PackU32(t.offsets[k]) {
      PackOffsetsAt(t.offsets, k);
      assert b[4 * k..4 * k + 4] == b[..4 * t.count][4 * k..4 * k + 4];
    }
  }

  /** After the offsets, `packed()` holds every (offset, string) pair's string
      in ascending (offset, string) order, each followed by 00 00. */
  lemma StringTablePackedStrings(t: StringTable)
    requires t.Packable()
    ensures exists order: seq<Placed> ::
      && Ascending(order) && multiset(order) == multiset(t.Pairs())
      && t.Packed() == PackOffsets(t.offsets) + PackStrings(order)
  {
    var order := SortPairs(t.Pairs());
    SortPairsAscending(t.Pairs());
    assert t.Packed() == PackOffsets(t.offsets) + PackStrings(order);
  }

  /** The search for the 00 00 terminator is not confined to code-unit
      boundaries: a string whose last code unit is 0x0100 packs to bytes that
      decode as an odd-length string, so decoding does not invert encoding. */
  lemma StringTableRoundTripFails()
    ensures var t := StringTable(1, [4], [[0x0100]]);
      && t.Packable() && t.Valid()
      && t.Packed() == [0, 0, 0, 4, 1, 0, 0, 0]
      && StringTable.Decode(t.Packed(), 1) == Err(UnicodeDecodeError)
  {
    PackOneString();
    DecodeOddString();
  }

  lemma PackOneString()
    ensures StringTable(1, [4], [[0x0100]]).Packable()
    ensures StringTable(1, [4], [[0x0100]]).Packed() == [0, 0, 0, 4, 1, 0, 0, 0]
  {
    var t := StringTable(1, [4], [[0x0100]]);
    assert t.Pairs() == [(4, [0x0100])];
    assert SortPairs(t.Pairs()) == [(4, [0x0100])];
    PackStringsOne();
    PackOffsetsOne();
  }

  lemma PackStringsOne()
    ensures PackStrings([(4, [0x0100])]) == [1, 0, 0, 0]
  {
    assert EncodeUtf16Be([0x0100]) == [1, 0];
  }

  lemma PackOffsetsOne()
    ensures PackOffsets([4]) == [0, 0, 0, 4]
  {
    assert PackU32(4) == [0, 0, 0, 4] by {
      assert 4 / 0x100 == 0 && 4 % 0x100 == 4;
    }
    assert PackOffsets([4]) == PackU32(4) + PackOffsets([]);
  }

  /** The first 00 00 after offset 4 of these bytes starts at byte 5, so the
      string read there has one byte. */
  lemma DecodeOddString()
    ensures StringTable.Decode([0, 0, 0, 4, 1, 0, 0, 0], 1) == Err(UnicodeDecodeError)
  {
    var b: Bytes := [0, 0, 0, 4, 1, 0, 0, 0];
    UnpackU32Value(b[..4]);
    assert UnpackOffsets(b, 1) == [4];
    var rest := Drop(b, 4);
    assert rest == [1, 0, 0, 0];
    assert IndexOfDoubleNul(rest, 0) == Some(1);
    assert StringAt(b, 4) == Err(UnicodeDecodeError);
  }
}
