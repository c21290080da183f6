/** Failure values shared by both containers.

    The archive code signals every failure with a Python exception; each
    exception class that the modelled code can raise becomes one `Error`. */
module Results {

  datatype Error =
    | StructError        // struct.pack/unpack: wrong buffer length or a field out of range
    | ValueNotFound      // bytes.index / tuple.index found nothing
    | KeyNotFound        // lookup of an absent key in a derived dict
    | IndexOutOfRange    // tuple indexing past the end
    | UnicodeDecodeError // an odd number of UTF-16 bytes
    | AttributeError     // the resource has no `asset_type`
    | TypeError          // a call with the wrong number of arguments

  datatype Result<+T> = Ok(value: T) | Err(error: Error) {
    predicate IsFailure() { Err? }

    function PropagateFailure<U>(): Result<U>
      requires Err?
    {
      Err(error)
    }

    function Extract(): T
      requires Ok?
    {
      value
    }
  }

  datatype Option<+T> = None | Some(value: T)

  /** The outcome of a loop that has already collected `acc` and then goes on
      to produce the outcome `rest`: a failure of the rest is the failure of
      the whole. */
  function Prepend<T>(acc: seq<T>, rest: Result<seq<T>>): Result<seq<T>>
  {
    match rest
    case Ok(s) => Ok(acc + s)
    case Err(e) => Err(e)
  }

  lemma PrependNothing<T>(rest: Result<seq<T>>)
    ensures Prepend([], rest) == rest
  {
    if rest.Ok? {
      assert [] + rest.value == rest.value;
    }
  }

  lemma PrependPrepend<T>(a: seq<T>, b: seq<T>, rest: Result<seq<T>>)
    ensures Prepend(a, Prepend(b, rest)) == Prepend(a + b, rest)
  {
    if rest.Ok? {
      assert a + (b + rest.value) == (a + b) + rest.value;
    }
  }
}

/** Big-endian fixed-width integers, Python slicing, 32-byte alignment and the
    text encodings used by the archive formats. */
module Binary {
  import opened Results
  import opened Sequences

  type Byte = b: int | 0 <= b < 0x100
  type Bytes = seq<Byte>

  /** A UTF-16 code unit; strings are sequences of code units. */
  type CodeUnit = u: int | 0 <= u < 0x1_0000

  predicate IsU16(x: int) { 0 <= x < 0x1_0000 }
  predicate IsU32(x: int) { 0 <= x < 0x1_0000_0000 }

  function Min(a: int, b: int): int { if a <= b then a else b }

  // ---------------------------------------------------------------------
  // Big-endian integers (struct formats ">H" and ">I")

  function PackU16(x: int): (r: Bytes)
    requires IsU16(x)
    ensures |r| == 2 && UnpackU16(r) == x
  {
    [x / 0x100, x % 0x100]
  }

  function UnpackU16(b: Bytes): (x: int)
    requires |b| == 2
    ensures IsU16(x)
  {
    var b0: int, b1: int := b[0], b[1];
    b0 * 0x100 + b1
  }

  lemma PackUnpackU16(b: Bytes)
    requires |b| == 2
    ensures PackU16(UnpackU16(b)) == b
  {
    var b0: int, b1: int := b[0], b[1];
    assert UnpackU16(b) / 0x100 == b0;
  }

  function PackU32(x: int): (r: Bytes)
    requires IsU32(x)
    ensures |r| == 4 && UnpackU32(r) == x
  {
    var q1 := x / 0x100;
    var q2 := q1 / 0x100;
    var q3 := q2 / 0x100;
    assert q1 == q2 * 0x100 + q1 % 0x100;
    assert q2 == q3 * 0x100 + q2 % 0x100;
    var r := [q3, q2 % 0x100, q1 % 0x100, x % 0x100];
    UnpackU32Value(r);
    r
  }

  function UnpackU32(b: Bytes): (x: int)
    requires |b| == 4
    ensures IsU32(x)
  {
    BigEndian(b)
  }

  /** The number the bytes of `b` spell, most significant first: the value
      of its first half shifted above the value of its second half. */
  function BigEndian(b: Bytes): (x: int)
    requires |b| == 1 || |b| == 2 || |b| == 4
    ensures 0 <= x < Power256(|b|)
  {
    if |b| == 1 then b[0]
    else BigEndian(b[..|b| / 2]) * Power256(|b| / 2) + BigEndian(b[|b| / 2..])
  }

  /** 256 to the power `n`, for the byte counts of a word. */
  function Power256(n: nat): nat
    requires n <= 4
  {
    if n == 0 then 1 else if n == 1 then 0x100 else if n == 2 then 0x1_0000
    else if n == 3 then 0x100_0000 else 0x1_0000_0000
  }

  /** `UnpackU32` written out. */
  lemma UnpackU32Value(b: Bytes)
    requires |b| == 4
    ensures UnpackU32(b) == (((b[0] as int) * 0x100 + b[1]) * 0x100 + b[2]) * 0x100 + b[3]
  {
    var b0: int, b1: int, b2: int, b3: int := b[0], b[1], b[2], b[3];
    assert BigEndian(b[..2]) == b0 * 0x100 + b1 by {
      assert b[..2][..1] == [b0] && b[..2][1..] == [b1];
    }
    assert BigEndian(b[2..]) == b2 * 0x100 + b3 by {
      assert b[2..][..1] == [b2] && b[2..][1..] == [b3];
    }
  }

  lemma PackUnpackU32(b: Bytes)
    requires |b| == 4
    ensures PackU32(UnpackU32(b)) == b
  {
    var b0: int, b1: int, b2: int, b3: int := b[0], b[1], b[2], b[3];
    var x := UnpackU32(b);
    UnpackU32Value(b);
    assert x / 0x100 == (b0 * 0x100 + b1) * 0x100 + b2;
    assert x / 0x100 / 0x100 == b0 * 0x100 + b1;
    assert x / 0x100 / 0x100 / 0x100 == b0;
  }

  // ---------------------------------------------------------------------
  // Python slicing: bounds past the end are clamped to the length, so a slice
  // never fails but may come out short.

  /** `s[lo:hi]` */
  function Slice(s: Bytes, lo: nat, hi: nat): (r: Bytes)
    ensures lo <= hi <= |s| ==> r == s[lo..hi]
    ensures hi <= lo || |s| <= lo ==> r == []
    ensures lo < hi && lo < |s| ==> r == s[lo..Min(hi, |s|)]
  {
    if hi <= lo || |s| <= lo then [] else s[lo..Min(hi, |s|)]
  }

  /** A slice bound as Python reads it: a negative bound counts from the end. */
  function SliceBound(n: nat, i: int): (b: nat)
    ensures 0 <= i ==> b == i
  {
    if 0 <= i then i else if 0 <= n + i then n + i else 0
  }

  /** `s[lo:hi]` for bounds of either sign. */
  function SignedSlice(s: Bytes, lo: int, hi: int): (r: Bytes)
    ensures 0 <= lo && 0 <= hi ==> r == Slice(s, lo, hi)
  {
    Slice(s, SliceBound(|s|, lo), SliceBound(|s|, hi))
  }

  /** `s[lo:]` */
  function Drop(s: Bytes, lo: nat): (r: Bytes)
    ensures lo <= |s| ==> r == s[lo..]
    ensures |s| <= lo ==> r == []
  {
    if |s| <= lo then [] else s[lo..]
  }

  /** `n * bytes([v])` */
  function Fill(v: Byte, n: nat): (r: Bytes)
    ensures |r| == n && forall i :: 0 <= i < n ==> r[i] == v
  {
    seq(n, _ => v)
  }

  /** `c` followed by `n` copies of `v`. */
  lemma PaddedWith(c: Bytes, v: Byte, n: nat)
    ensures var b := c + Fill(v, n);
      |b| == |c| + n && b[..|c|] == c && forall i :: |c| <= i < |b| ==> b[i] == v
  {
    var b := c + Fill(v, n);
    assert b[..|c|] == c;
    forall i | |c| <= i < |b| ensures b[i] == v {
      assert b[i] == Fill(v, n)[i - |c|];
    }
  }

  // ---------------------------------------------------------------------
  // 32-byte alignment (pak.py:92-94, and the padding sizes of both containers)

  /** Number of filler bytes that rounds `n` up to a multiple of 32. */
  function PaddingTo32(n: nat): (p: nat)
    ensures p < 32 && (n + p) % 32 == 0
    ensures n % 32 == 0 <==> p == 0
  {
    (32 - n % 32) % 32
  }

  /** `n` rounded up to the next multiple of 32. */
  function AlignedSize(n: nat): (m: nat)
    ensures m % 32 == 0 && n <= m < n + 32
  {
    n + PaddingTo32(n)
  }

  lemma AlignedSum(a: int, b: int)
    requires a % 32 == 0 && b % 32 == 0
    ensures (a + b) % 32 == 0
  {
  }

  /** The input followed by 0xFF bytes up to the next multiple of 32. */
  function AlignedTo32Bytes(b: Bytes): (r: Bytes)
    ensures |r| == AlignedSize(|b|)
    ensures |r| % 32 == 0 && |b| <= |r| < |b| + 32
    ensures r[..|b|] == b
    ensures forall i :: |b| <= i < |r| ==> r[i] == 0xFF
    ensures |b| % 32 == 0 ==> r == b
  {
    b + Fill(0xFF, PaddingTo32(|b|))
  }

  /** Σ of the chunk lengths, each rounded up to a multiple of 32. */
  function AlignedChunksSize(chunks: seq<Bytes>): nat
  {
    if chunks == [] then 0 else AlignedSize(|chunks[0]|) + AlignedChunksSize(chunks[1..])
  }

  /** Each chunk followed by its own 0xFF padding, as a sequence of chunks. */
  function PaddedChunks(chunks: seq<Bytes>): (r: seq<Bytes>)
    ensures |r| == |chunks| && forall k :: 0 <= k < |chunks| ==> r[k] == AlignedTo32Bytes(chunks[k])
  {
    if chunks == [] then [] else [AlignedTo32Bytes(chunks[0])] + PaddedChunks(chunks[1..])
  }

  /** Each chunk followed by its own 0xFF padding, joined. */
  function JoinAligned(chunks: seq<Bytes>): (r: Bytes)
    ensures |r| == AlignedChunksSize(chunks)
  {
    PaddedChunksSize(chunks);
    Concat(PaddedChunks(chunks))
  }

  lemma {:induction false} PaddedChunksSize(chunks: seq<Bytes>)
    ensures |Concat(PaddedChunks(chunks))| == AlignedChunksSize(chunks)
  {
    if chunks != [] {
      PaddedChunksSize(chunks[1..]);
      assert PaddedChunks(chunks)[1..] == PaddedChunks(chunks[1..]);
    }
  }

  lemma {:induction false} AlignedChunksSizeAligned(chunks: seq<Bytes>)
    ensures AlignedChunksSize(chunks) % 32 == 0
  {
    if chunks != [] {
      AlignedChunksSizeAligned(chunks[1..]);
      AlignedSum(AlignedSize(|chunks[0]|), AlignedChunksSize(chunks[1..]));
    }
  }

  /** `b` holds `x` followed by its 0xFF padding from byte `at` on. */
  predicate PaddedAt(b: Bytes, at: nat, x: Bytes)
  {
    at + AlignedSize(|x|) <= |b| && b[at..at + AlignedSize(|x|)] == AlignedTo32Bytes(x)
  }

  /** Chunk `k`, with its padding, follows the padded chunks before it. */
  lemma JoinAlignedAt(chunks: seq<Bytes>, k: nat)
    requires k < |chunks|
    ensures PaddedAt(JoinAligned(chunks), AlignedChunksSize(chunks[..k]), chunks[k])
  {
    var b := JoinAligned(chunks);
    assert b[0..] == b;
    RegionAt(b, 0, chunks, k);
  }

  /** Chunk `k` of a region that holds `JoinAligned(chunks)` from `c` on. */
  lemma RegionAt(b: Bytes, c: nat, chunks: seq<Bytes>, k: nat)
    requires c <= |b| && b[c..] == JoinAligned(chunks) && k < |chunks|
    ensures PaddedAt(b, c + AlignedChunksSize(chunks[..k]), chunks[k])
  {
    var padded := PaddedChunks(chunks);
    ConcatAtSuffix(b, c, padded, k);
    PaddedChunksPrefix(chunks, k);
    PaddedChunksSize(chunks[..k]);
    assert padded[k] == AlignedTo32Bytes(chunks[k]);
  }

  /** Padding the first `k` chunks gives the first `k` padded chunks. */
  lemma PaddedChunksPrefix(chunks: seq<Bytes>, k: nat)
    requires k <= |chunks|
    ensures PaddedChunks(chunks[..k]) == PaddedChunks(chunks)[..k]
  {
    var l := PaddedChunks(chunks[..k]);
    var r := PaddedChunks(chunks)[..k];
    assert |l| == |r|;
    forall i | 0 <= i < k
      ensures l[i] == r[i]
    {
      assert chunks[..k][i] == chunks[i];
    }
  }

  // ---------------------------------------------------------------------
  // Struct format "4s": a byte string packed into exactly four bytes,
  // truncated when longer and NUL-padded when shorter.

  function Pack4s(t: Bytes): (r: Bytes)
    ensures |r| == 4
    ensures |t| == 4 ==> r == t
    ensures forall i :: 0 <= i < 4 ==> r[i] == if i < |t| then t[i] else 0
  {
    if |t| >= 4 then t[..4] else t + Fill(0, 4 - |t|)
  }

  // ---------------------------------------------------------------------
  // Terminator searches: `bytes.index(b"\x00")` and `bytes.index(b"\x00\x00")`

  /** Position of the first 0x00 at or after `from`, if any. */
  function IndexOfNul(s: Bytes, from: nat): (r: Option<nat>)
    requires from <= |s|
    ensures r.Some? ==> from <= r.value < |s| && s[r.value] == 0
    ensures r.Some? ==> forall j :: from <= j < r.value ==> s[j] != 0
    ensures r.None? ==> forall j :: from <= j < |s| ==> s[j] != 0
    decreases |s| - from
  {
    if from == |s| then None
    else if s[from] == 0 then Some(from)
    else IndexOfNul(s, from + 1)
  }

  predicate DoubleNulAt(s: Bytes, j: int)
  {
    0 <= j && j + 1 < |s| && s[j] == 0 && s[j + 1] == 0
  }

  /** Position of the first 0x00 0x00 pair starting at or after `from`, at any
      parity, if any. */
  function IndexOfDoubleNul(s: Bytes, from: nat): (r: Option<nat>)
    requires from <= |s|
    ensures r.Some? ==> from <= r.value && DoubleNulAt(s, r.value)
    ensures r.Some? ==> forall j :: from <= j < r.value ==> !DoubleNulAt(s, j)
    ensures r.None? ==> forall j :: from <= j ==> !DoubleNulAt(s, j)
    decreases |s| - from
  {
    if from + 1 >= |s| then None
    else if s[from] == 0 && s[from + 1] == 0 then Some(from)
    else IndexOfDoubleNul(s, from + 1)
  }

  // ---------------------------------------------------------------------
  // UTF-16 big-endian, at the level of code units (no surrogate checks)

  function EncodeUtf16Be(s: seq<CodeUnit>): (r: Bytes)
    ensures |r| == 2 * |s|
    ensures forall k :: 0 <= k < |s| ==> r[2 * k..2 * k + 2] == PackU16(s[k])
  {
    var r := seq(2 * |s|, i requires 0 <= i < 2 * |s| => PackU16(s[i / 2])[i % 2]);
    assert forall k :: 0 <= k < |s| ==> r[2 * k..2 * k + 2] == PackU16(s[k]) by {
      forall k | 0 <= k < |s| ensures r[2 * k..2 * k + 2] == PackU16(s[k]) {
        assert (2 * k) / 2 == k && (2 * k + 1) / 2 == k;
      }
    }
    r
  }

  function DecodeUtf16Be(b: Bytes): (r: Result<seq<CodeUnit>>)
    ensures r.Ok? <==> |b| % 2 == 0
    ensures r.Err? ==> r.error == UnicodeDecodeError
    ensures r.Ok? ==> |r.value| == |b| / 2
    ensures r.Ok? ==> forall k :: 0 <= k < |r.value| ==> r.value[k] == UnpackU16(b[2 * k..2 * k + 2])
  {
    if |b| % 2 != 0 then Err(UnicodeDecodeError)
    else Ok(seq(|b| / 2, k requires 0 <= k < |b| / 2 => UnpackU16(b[2 * k..2 * k + 2])))
  }

  /** Decoding what was encoded gives the code units back. */
  lemma Utf16RoundTrip(s: seq<CodeUnit>)
    ensures DecodeUtf16Be(EncodeUtf16Be(s)) == Ok(s)
  {
    var b := EncodeUtf16Be(s);
    var r := DecodeUtf16Be(b);
    assert |b| % 2 == 0;
    forall k | 0 <= k < |s| ensures r.value[k] == s[k] {
      assert b[2 * k..2 * k + 2] == PackU16(s[k]);
    }
    assert r.value == s;
  }

  /** Encoding decoded bytes gives the bytes back. */
  lemma Utf16BytesRoundTrip(b: Bytes)
    requires |b| % 2 == 0
    ensures DecodeUtf16Be(b).Ok? && EncodeUtf16Be(DecodeUtf16Be(b).value) == b
  {
    var s := DecodeUtf16Be(b).value;
    var e := EncodeUtf16Be(s);
    forall i | 0 <= i < |b| ensures e[i] == b[i] {
      var k := i / 2;
      PackUnpackU16(b[2 * k..2 * k + 2]);
      assert e[2 * k..2 * k + 2] == PackU16(s[k]);
      assert e[i] == e[2 * k..2 * k + 2][i - 2 * k];
    }
  }
}

/** Python slicing of tuples and lists with a non-negative bound, which
    clamps to the length instead of failing. */
module Sequences {
  import opened Results

  /** `s[:n]` */
  function Take<T>(s: seq<T>, n: nat): (r: seq<T>)
    ensures n <= |s| ==> r == s[..n]
    ensures |s| <= n ==> r == s
  {
    if n <= |s| then s[..n] else s
  }

  /** `s[n:]` */
  function Skip<T>(s: seq<T>, n: nat): (r: seq<T>)
    ensures n <= |s| ==> r == s[n..]
    ensures |s| <= n ==> r == []
  {
    if n <= |s| then s[n..] else []
  }

  /** The first of four concatenated pieces is a prefix of the whole. */
  lemma PrefixOfAppend4<T>(a: seq<T>, b: seq<T>, c: seq<T>, d: seq<T>)
    ensures |a| <= |a + b + c + d| && (a + b + c + d)[..|a|] == a
  {
    assert (a + b + c + d)[..|a|] == ((a + b) + c + d)[..|a|];
  }

  /** A slice that lies inside a prefix is that slice of the prefix. */
  lemma SliceOfPrefix<T>(s: seq<T>, p: seq<T>, i: nat, j: nat)
    requires i <= j <= |p| <= |s| && s[..|p|] == p
    ensures s[i..j] == p[i..j]
  {
    forall x | 0 <= x < j - i ensures s[i..j][x] == p[i..j][x] {
      assert p[i + x] == s[..|p|][i + x];
    }
  }

  /** A slice of the suffix from `c` on is a slice of the whole, moved by `c`. */
  lemma SliceOfSuffix<T>(s: seq<T>, c: nat, r: seq<T>, i: nat, j: nat)
    requires c <= |s| && s[c..] == r && i <= j <= |r|
    ensures c + j <= |s| && s[c + i..c + j] == r[i..j]
  {
    assert |r| == |s| - c;
    forall x | 0 <= x < j - i ensures s[c + i..c + j][x] == r[i..j][x] {
      assert s[c + i + x] == s[c..][i + x];
    }
  }

  /** A slice of the suffix from `c` on that is `x` is the slice of the
      whole moved by `c`. */
  lemma SliceOfSuffixIs<T>(s: seq<T>, c: nat, r: seq<T>, i: nat, j: nat, x: seq<T>)
    requires c <= |s| && s[c..] == r && i <= j <= |r| && r[i..j] == x
    ensures c + j <= |s| && s[c + i..c + j] == x
  {
    SliceOfSuffix(s, c, r, i, j);
  }

  /** Piece `k` of pieces laid out from `c` on. */
  lemma ConcatAtSuffix<T>(b: seq<T>, c: nat, pieces: seq<seq<T>>, k: nat)
    requires c <= |b| && b[c..] == Concat(pieces) && k < |pieces|
    ensures var at := c + |Concat(pieces[..k])|;
            && at + |pieces[k]| <= |b|
            && b[at..at + |pieces[k]|] == pieces[k]
  {
    ConcatAt(pieces, k);
    var lo := |Concat(pieces[..k])|;
    SliceOfSuffixIs(b, c, Concat(pieces), lo, lo + |pieces[k]|, pieces[k]);
  }

  /** The pieces, one after the other. */
  function Concat<T>(pieces: seq<seq<T>>): seq<T>
  {
    if pieces == [] then [] else pieces[0] + Concat(pieces[1..])
  }

  /** Piece `k` follows the pieces before it. */
  lemma {:induction false} ConcatAt<T>(pieces: seq<seq<T>>, k: nat)
    requires k < |pieces|
    ensures var at := |Concat(pieces[..k])|;
            && at + |pieces[k]| <= |Concat(pieces)|
            && Concat(pieces)[at..at + |pieces[k]|] == pieces[k]
  {
    var head := pieces[0];
    var tail := Concat(pieces[1..]);
    if k == 0 {
      assert pieces[..0] == [];
      SliceOfAppendLeft(head, tail, 0, |head|);
    } else {
      ConcatAt(pieces[1..], k - 1);
      assert pieces[..k][0] == head && pieces[..k][1..] == pieces[1..][..k - 1];
      var at := |Concat(pieces[1..][..k - 1])|;
      SliceOfAppendRight(head, tail, |head| + at, |head| + at + |pieces[k]|);
    }
  }

  /** A slice of `a + b` inside `a` is that slice of `a`. */
  lemma SliceOfAppendLeft<T>(a: seq<T>, b: seq<T>, i: nat, j: nat)
    requires i <= j <= |a|
    ensures (a + b)[i..j] == a[i..j]
  {
  }

  /** A slice of `a + b` inside `b` is that slice of `b`. */
  lemma SliceOfAppendRight<T>(a: seq<T>, b: seq<T>, i: nat, j: nat)
    requires |a| <= i <= j <= |a| + |b|
    ensures (a + b)[i..j] == b[i - |a|..j - |a|]
  {
  }

  /** Element `k` of `a + [x] + b`. */
  lemma IndexOfSplice<T>(a: seq<T>, x: T, b: seq<T>, k: nat)
    requires k < |a| + 1 + |b|
    ensures (a + [x] + b)[k] == if k < |a| then a[k] else if k == |a| then x else b[k - |a| - 1]
  {
  }

  /** `s[:i] + [x] + s[i+1:]` is `s` with element `i` replaced. */
  lemma SpliceParts<T>(a: seq<T>, x: T, b: seq<T>)
    ensures var s := a + [x] + b;
            && |s| == |a| + 1 + |b| && s[..|a|] == a && s[|a|] == x && s[|a| + 1..] == b
  {
    var s := a + [x] + b;
    assert s[|a| + 1..] == b;
  }

  /** Dropping the element just inserted at `i` gives the sequence back. */
  lemma InsertThenDrop<T>(s: seq<T>, i: nat, x: T)
    requires i <= |s|
    ensures var u := Take(s, i) + [x] + Skip(s, i);
            Take(u, i) + Skip(u, i + 1) == s
  {
    var u := Take(s, i) + [x] + Skip(s, i);
    assert Take(u, i) == s[..i];
    assert Skip(u, i + 1) == s[i..];
    assert s[..i] + s[i..] == s;
  }

  lemma SpliceIsUpdate<T>(s: seq<T>, i: nat, x: T)
    requires i < |s|
    ensures Take(s, i) + [x] + Skip(s, i + 1) == s[i := x]
  {
    assert Take(s, i) + [x] + Skip(s, i + 1) == s[..i] + [x] + s[i + 1..];
  }

  /** `s.index(x)`: the first position holding `x`, if any. */
  function FirstIndexOf<T(==)>(s: seq<T>, x: T): (r: Option<nat>)
    ensures r.Some? ==> r.value < |s| && s[r.value] == x
    ensures r.Some? ==> forall j :: 0 <= j < r.value ==> s[j] != x
    ensures r.None? <==> x !in s
  {
    if s == [] then None
    else if s[0] == x then Some(0)
    else match FirstIndexOf(s[1..], x)
      case None => None
      case Some(i) => Some(i + 1)
  }
}
