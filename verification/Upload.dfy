/**
 The upload of one file, end to end: the pool's verdict, the chunker and the
 articles together.
 */
module Upload {
  import opened Wrappers
  import opened YEnc
  import opened Article
  import opened Reassembly
  import opened Post
  import Pool = UploadPool

  /** The pool that uploads `file` over `workers` connections. */
  function PoolFor(file: seq<byte>, workers: nat): Pool.Config {
    Pool.Config(TotalChunks(|file|), workers)
  }

  lemma {:induction false} OccIn(q: seq<nat>, j: nat)
    ensures Pool.Occ(q, j) >= 1 <==> j in q
  {
    if q != [] { OccIn(q[1..], j); }
  }

  lemma CompleteParts(file: seq<byte>, workers: nat, segments: seq<nat>)
    requires Pool.Complete(PoolFor(file, workers), segments)
    ensures PartNumbers(|file|, segments)
    ensures forall i: nat :: 1 <= i <= TotalChunks(|file|) ==> i in segments
  {
    forall i: nat ensures i in segments <==> 1 <= i <= TotalChunks(|file|) {
      OccIn(segments, i);
    }
    forall k | 0 <= k < |segments| ensures 1 <= segments[k] <= TotalChunks(|file|) {
      assert segments[k] in segments;
    }
  }

  // ------------------------------------------------------ byte accounting

  /** The Bytes attributes of the collected segments, added up. */
  function SegmentBytes(file: seq<byte>, segments: seq<nat>): nat
    requires PartNumbers(|file|, segments)
  {
    if segments == [] then 0 else |Chunk(file, segments[0])| + SegmentBytes(file, segments[1..])
  }

  lemma {:induction false} BytesAppend(file: seq<byte>, a: seq<nat>, b: seq<nat>)
    requires PartNumbers(|file|, a) && PartNumbers(|file|, b)
    ensures PartNumbers(|file|, a + b)
    ensures SegmentBytes(file, a + b) == SegmentBytes(file, a) + SegmentBytes(file, b)
  {
    if a == [] {
      assert a + b == b;
    } else {
      assert (a + b)[1..] == a[1..] + b;
      BytesAppend(file, a[1..], b);
    }
  }

  lemma {:induction false} OccAppend(a: seq<nat>, b: seq<nat>, j: nat)
    ensures Pool.Occ(a + b, j) == Pool.Occ(a, j) + Pool.Occ(b, j)
  {
    if a == [] {
      assert a + b == b;
    } else {
      assert (a + b)[1..] == a[1..] + b;
      OccAppend(a[1..], b, j);
    }
  }

  lemma {:induction false} FindIndex(q: seq<nat>, j: nat) returns (i: nat)
    requires Pool.Occ(q, j) >= 1
    ensures i < |q| && q[i] == j
  {
    if q[0] == j {
      i := 0;
    } else {
      i := FindIndex(q[1..], j);
      i := i + 1;
    }
  }

  lemma HeadOccurs(q: seq<nat>)
    ensures q != [] ==> Pool.Occ(q, q[0]) >= 1
  {
  }

  /** Taking one occurrence of n out. */
  lemma TakeOut(file: seq<byte>, q: seq<nat>, n: nat) returns (rest: seq<nat>)
    requires PartNumbers(|file|, q) && Pool.Occ(q, n) >= 1
    ensures PartNumbers(|file|, rest) && 1 <= n <= TotalChunks(|file|) && |rest| == |q| - 1
    ensures forall j: nat :: Pool.Occ(rest, j) == Pool.Occ(q, j) - if j == n then 1 else 0
    ensures SegmentBytes(file, q) == SegmentBytes(file, rest) + |Chunk(file, n)|
  {
    var i := FindIndex(q, n);
    var a, b := q[..i], q[i + 1..];
    rest := a + b;
    assert q == a + ([n] + b);
    assert [n][1..] == [];
    forall j: nat ensures Pool.Occ(a + b, j) == Pool.Occ(q, j) - if j == n then 1 else 0 {
      OccAppend(a, [n] + b, j);
      OccAppend([n], b, j);
      OccAppend(a, b, j);
    }
    BytesAppend(file, [n], b);
    BytesAppend(file, a, [n] + b);
    BytesAppend(file, a, b);
  }

  /** Distinct parts among 1..n have at most the bytes of the first n parts. */
  lemma {:induction false} DistinctBytes(file: seq<byte>, q: seq<nat>, n: nat)
    requires n <= TotalChunks(|file|) && PartNumbers(|file|, q)
    requires forall j: nat :: Pool.Occ(q, j) <= if 1 <= j <= n then 1 else 0
    ensures SegmentBytes(file, q) <= SumOfSizes(file, n)
    decreases n
  {
    if n == 0 {
      HeadOccurs(q);
    } else if Pool.Occ(q, n) >= 1 {
      var rest := TakeOut(file, q, n);
      DistinctBytes(file, rest, n - 1);
    } else {
      DistinctBytes(file, q, n - 1);
    }
  }

  /** Any order of 1..n has n entries and adds up to the same number of bytes. */
  lemma {:induction false} BytesOfPermutation(file: seq<byte>, q: seq<nat>, n: nat)
    requires n <= TotalChunks(|file|) && PartNumbers(|file|, q)
    requires forall j: nat :: Pool.Occ(q, j) == if 1 <= j <= n then 1 else 0
    ensures SegmentBytes(file, q) == SumOfSizes(file, n) && |q| == n
    decreases n
  {
    if n == 0 {
      HeadOccurs(q);
    } else {
      var rest := TakeOut(file, q, n);
      BytesOfPermutation(file, rest, n - 1);
    }
  }

  // --------------------------------------------------------- reading it back

  /** The number of data bytes that a reader finds in an article. */
  function DataLength(wire: seq<byte>): nat {
    match ReadBack(wire) case None => 0 case Some(m) => |m.data|
  }

  function SumLengths(wires: seq<seq<byte>>, len: seq<byte> -> nat): nat {
    if wires == [] then 0 else len(wires[0]) + SumLengths(wires[1..], len)
  }

  function ReadBytes(wires: seq<seq<byte>>): nat { SumLengths(wires, DataLength) }

  lemma {:induction false} SumIsBytes(file: seq<byte>, wires: seq<seq<byte>>, len: seq<byte> -> nat, parts: seq<nat>)
    requires PartNumbers(|file|, parts) && |wires| == |parts|
    requires forall k :: 0 <= k < |wires| ==> len(wires[k]) == |Chunk(file, parts[k])|
    ensures SumLengths(wires, len) == SegmentBytes(file, parts)
  {
    if parts != [] { SumIsBytes(file, wires[1..], len, parts[1..]); }
  }

  lemma ReadBytesIs(file: seq<byte>, name: seq<byte>, parts: seq<nat>, crc: seq<byte> -> Crc)
    requires Postable(name) && PartNumbers(|file|, parts)
    ensures ReadBytes(Articles(file, name, parts, crc)) == SegmentBytes(file, parts)
  {
    var wires := Articles(file, name, parts, crc);
    forall k | 0 <= k < |wires| ensures DataLength(wires[k]) == |Chunk(file, parts[k])| {
      PostedFields(file, name, parts[k], crc);
    }
    SumIsBytes(file, wires, DataLength, parts);
  }

  /**
   Each article of a successful upload, as its reader sees it: it names its own part twice,
   the number of articles, the bytes they hold together, its own range, and the checksum of
   its data.
   */
  predicate Describes(m: Parsed, name: seq<byte>, n: nat, wires: seq<seq<byte>>, crc: seq<byte> -> Crc) {
    && m.name == name && m.number == n && m.endNumber == n
    && m.total == |wires| && m.size == ReadBytes(wires)
    && m.begin == (n - 1) * 716800 + 1 && m.end == m.begin + |m.data| - 1
    && m.endSize == |m.data| && m.crc == crc(m.data)
  }

  lemma ArticlesDescribe(
    file: seq<byte>, name: seq<byte>, parts: seq<nat>, crc: seq<byte> -> Crc, k: nat)
    requires Postable(name) && PartNumbers(|file|, parts) && k < |parts|
    requires |parts| == TotalChunks(|file|) && SegmentBytes(file, parts) == |file|
    ensures var wires := Articles(file, name, parts, crc);
            ReadBack(wires[k]).Some? && Describes(ReadBack(wires[k]).value, name, parts[k], wires, crc)
  {
    PostedFields(file, name, parts[k], crc);
    ReadBytesIs(file, name, parts, crc);
  }

  /**
   Whatever the interleaving, a nil-error return means: every part is listed exactly once,
   its byte counts add up to the file size, reading the posted articles back in the order the
   segments completed rebuilds the file, and each article describes itself and the whole
   correctly.
   */
  lemma UploadIsFaithful(
    file: seq<byte>, name: seq<byte>, crc: seq<byte> -> Crc, workers: nat, s: Pool.State, buf: seq<byte>)
    requires workers >= 1 || file == []
    requires Postable(name) && |buf| == |file|
    requires Pool.Reachable(PoolFor(file, workers), s) && s.coll == Pool.Returned(true)
    ensures Pool.Complete(PoolFor(file, workers), s.segments)
    ensures PartNumbers(|file|, s.segments) && SegmentBytes(file, s.segments) == |file|
    ensures Rebuild(Articles(file, name, s.segments, crc), buf) == Some(file)
    ensures var wires := Articles(file, name, s.segments, crc);
            forall k :: 0 <= k < |wires| ==>
              ReadBack(wires[k]).Some? && Describes(ReadBack(wires[k]).value, name, s.segments[k], wires, crc)
  {
    var c := PoolFor(file, workers);
    Pool.ReachableInv(c, s);
    CompleteParts(file, workers, s.segments);
    BytesOfPermutation(file, s.segments, c.total);
    SizesAddUp(file, c.total);
    RebuildIsOriginal(file, name, s.segments, crc, buf);
    var wires := Articles(file, name, s.segments, crc);
    forall k | 0 <= k < |wires|
      ensures ReadBack(wires[k]).Some? && Describes(ReadBack(wires[k]).value, name, s.segments[k], wires, crc) {
      ArticlesDescribe(file, name, s.segments, crc, k);
    }
  }
}
