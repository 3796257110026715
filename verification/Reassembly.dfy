/**
 Chunking of a file into numbered parts and its inverse: decode every posted
 article, write its bytes at the announced offset, in whatever order they come.
 */
module Reassembly {
  import opened Numbers
  import opened Wrappers
  import opened YEnc
  import opened Article
  import opened DotTransfer
  import opened Post

  const CHUNK_SIZE: nat := 716800  // 700 * 1024

  function TotalChunks(size: nat): nat { (size + CHUNK_SIZE - 1) / CHUNK_SIZE }

  function Offset(i: nat): nat
    requires i >= 1
  {
    (i - 1) * CHUNK_SIZE
  }

  /** Part ranges are non-empty, inside the file, and meet end to start. */
  lemma PartRange(size: nat, i: nat)
    requires 1 <= i <= TotalChunks(size)
    ensures Offset(i) < size && Offset(i) == (i - 1) * 716800
    ensures (TotalChunks(size) - 1) * 716800 < size <= TotalChunks(size) * 716800
    ensures i < TotalChunks(size) ==> Offset(i) + CHUNK_SIZE == Offset(i + 1)
    ensures i == TotalChunks(size) ==> size <= Offset(i) + CHUNK_SIZE
  {
  }

  /** The bytes of part i: a full chunk, or what is left of the file. */
  function Chunk(file: seq<byte>, i: nat): (c: seq<byte>)
    requires 1 <= i <= TotalChunks(|file|)
    ensures 0 < |c| <= CHUNK_SIZE
  {
    PartRange(|file|, i);
    file[Offset(i)..Min(Offset(i) + CHUNK_SIZE, |file|)]
  }

  /** Position k of the file lies in part k / CHUNK_SIZE + 1 and in no other. */
  lemma PartOfPosition(file: seq<byte>, k: nat, i: nat)
    requires k < |file| && 1 <= i <= TotalChunks(|file|)
    ensures 1 <= k / CHUNK_SIZE + 1 <= TotalChunks(|file|)
    ensures Offset(i) <= k < Offset(i) + |Chunk(file, i)| <==> i == k / CHUNK_SIZE + 1
  {
    PartRange(|file|, i);
  }

  /** The chunk sizes add up to the file size. */
  function SumOfSizes(file: seq<byte>, n: nat): nat
    requires n <= TotalChunks(|file|)
  {
    if n == 0 then 0 else SumOfSizes(file, n - 1) + |Chunk(file, n)|
  }

  lemma {:induction false} SizesAddUp(file: seq<byte>, n: nat)
    requires n <= TotalChunks(|file|)
    ensures SumOfSizes(file, n) == Min(n * CHUNK_SIZE, |file|)
  {
    if n > 0 {
      SizesAddUp(file, n - 1);
      PartRange(|file|, n);
    }
  }

  // ------------------------------------------------------------- rebuilding

  /** The upload job of part i as the dispatcher fills it in. */
  function Job(file: seq<byte>, name: seq<byte>, i: nat, crc: seq<byte> -> Crc): Part
    requires 1 <= i <= TotalChunks(|file|)
  {
    Part(name, i, TotalChunks(|file|), |file|, Offset(i), Chunk(file, i), crc(Chunk(file, i)))
  }

  /** The bytes on the wire for part i. */
  function Posted(file: seq<byte>, name: seq<byte>, i: nat, crc: seq<byte> -> Crc): seq<byte>
    requires 1 <= i <= TotalChunks(|file|)
  {
    Wire(Encoded(Job(file, name, i, crc)))
  }

  /** Writes `data` over `buf` from `at`; refuses a write outside the buffer. */
  function WriteAt(buf: seq<byte>, at: nat, data: seq<byte>): Option<seq<byte>> {
    if at + |data| <= |buf| then Some(buf[..at] + data + buf[at + |data|..]) else None
  }

  /** One article: read it off the wire and write its data at `begin` - 1. */
  function Deliver(wire: seq<byte>, buf: seq<byte>): Option<seq<byte>> {
    match ReadBack(wire)
    case None => None
    case Some(m) => if m.begin == 0 || |m.data| != m.endSize then None else WriteAt(buf, m.begin - 1, m.data)
  }

  type Delivery = (seq<byte>, seq<byte>) -> Option<seq<byte>>

  /** Delivers the articles in the order they come. */
  function DeliverAll(wires: seq<seq<byte>>, deliver: Delivery, buf: seq<byte>): Option<seq<byte>> {
    if wires == [] then Some(buf)
    else
      match deliver(wires[0], buf)
      case None => None
      case Some(buf') => DeliverAll(wires[1..], deliver, buf')
  }

  /** The downloader. */
  function Rebuild(wires: seq<seq<byte>>, buf: seq<byte>): Option<seq<byte>> { DeliverAll(wires, Deliver, buf) }

  predicate PartNumbers(size: nat, parts: seq<nat>) {
    forall k :: 0 <= k < |parts| ==> 1 <= parts[k] <= TotalChunks(size)
  }

  /** The articles of the listed parts, in that order. */
  function Articles(file: seq<byte>, name: seq<byte>, parts: seq<nat>, crc: seq<byte> -> Crc): (r: seq<seq<byte>>)
    requires PartNumbers(|file|, parts)
    ensures |r| == |parts|
  {
    seq(|parts|, k requires 0 <= k < |parts| => Posted(file, name, parts[k], crc))
  }

  lemma DeliverPosted(file: seq<byte>, name: seq<byte>, i: nat, crc: seq<byte> -> Crc, buf: seq<byte>)
    requires 1 <= i <= TotalChunks(|file|) && Postable(name)
    ensures Deliver(Posted(file, name, i, crc), buf) == WriteAt(buf, Offset(i), Chunk(file, i))
  {
    PostRoundTrip(Job(file, name, i, crc));
  }

  /** What a reader learns from the article of part i. */
  lemma PostedFields(file: seq<byte>, name: seq<byte>, i: nat, crc: seq<byte> -> Crc)
    requires 1 <= i <= TotalChunks(|file|) && Postable(name)
    ensures var r := ReadBack(Posted(file, name, i, crc));
            r.Some? &&
            var m := r.value;
            && m.name == name && m.number == i && m.endNumber == i
            && m.total == TotalChunks(|file|) && m.size == |file|
            && m.begin == (i - 1) * 716800 + 1 && m.end == m.begin + |m.data| - 1
            && m.data == Chunk(file, i) && m.endSize == |m.data| && m.crc == crc(m.data)
  {
    PostRoundTrip(Job(file, name, i, crc));
  }

  /** `buf` agrees with the file on every position of the listed parts. */
  ghost predicate Agrees(file: seq<byte>, buf: seq<byte>, parts: seq<nat>) {
    && |buf| == |file|
    && forall k :: 0 <= k < |file| && k / CHUNK_SIZE + 1 in parts ==> buf[k] == file[k]
  }

  /** Delivering wire k writes part parts[k] in its place. */
  ghost predicate Writes(file: seq<byte>, deliver: Delivery, wires: seq<seq<byte>>, parts: seq<nat>) {
    && |wires| == |parts| && PartNumbers(|file|, parts)
    && (forall k, b :: 0 <= k < |wires| ==> deliver(wires[k], b) == WriteAt(b, Offset(parts[k]), Chunk(file, parts[k])))
  }

  lemma {:induction false} RebuildAgrees(
    file: seq<byte>, deliver: Delivery, wires: seq<seq<byte>>, parts: seq<nat>, buf: seq<byte>, seen: seq<nat>)
    returns (r: seq<byte>)
    requires Writes(file, deliver, wires, parts) && Agrees(file, buf, seen)
    ensures DeliverAll(wires, deliver, buf) == Some(r) && Agrees(file, r, seen + parts)
    decreases |parts|
  {
    if parts == [] {
      assert seen + parts == seen;
      r := buf;
    } else {
      var i, rest := parts[0], parts[1..];
      var w := WriteAt(buf, Offset(i), Chunk(file, i)).value;
      assert deliver(wires[0], buf) == Some(w);
      r := RebuildAgrees(file, deliver, wires[1..], rest, w, seen + [i]);
      assert seen + [i] + rest == seen + parts;
    }
  }

  lemma {:induction false} ArticlesWrite(file: seq<byte>, name: seq<byte>, parts: seq<nat>, crc: seq<byte> -> Crc)
    requires PartNumbers(|file|, parts) && Postable(name)
    ensures Writes(file, Deliver, Articles(file, name, parts, crc), parts)
  {
    var wires := Articles(file, name, parts, crc);
    forall k, b | 0 <= k < |wires|
      ensures Deliver(wires[k], b) == WriteAt(b, Offset(parts[k]), Chunk(file, parts[k])) {
      DeliverPosted(file, name, parts[k], crc, b);
    }
  }

  /**
   End to end: from any initial contents of the right size, the articles of all parts,
   in any order and with any repetition, rebuild exactly the original file.
   */
  lemma RebuildIsOriginal(file: seq<byte>, name: seq<byte>, parts: seq<nat>, crc: seq<byte> -> Crc, buf: seq<byte>)
    requires Postable(name) && |buf| == |file|
    requires PartNumbers(|file|, parts) && forall i: nat :: 1 <= i <= TotalChunks(|file|) ==> i in parts
    ensures Rebuild(Articles(file, name, parts, crc), buf) == Some(file)
  {
    ArticlesWrite(file, name, parts, crc);
    var r := RebuildAgrees(file, Deliver, Articles(file, name, parts, crc), parts, buf, []);
    assert [] + parts == parts;
    forall k | 0 <= k < |file| ensures r[k] == file[k] {
      PartOfPosition(file, k, 1);
    }
    assert r == file;
  }

  // ------------------------------------------------------------ short reads

  /** Bytes taken from the file by the first n calls of Read. */
  function Taken(got: seq<nat>, n: nat): nat
    requires n <= |got|
  {
    if n == 0 then 0 else Taken(got, n - 1) + got[n - 1]
  }

  /** Every part announces the place its bytes came from, and the parts use up the file. */
  predicate Aligned(got: seq<nat>, size: nat)
    requires |got| == TotalChunks(size)
  {
    && (forall n :: 0 <= n < |got| ==> Taken(got, n) == Offset(n + 1))
    && Taken(got, |got|) == size
  }

  /** Each Read fills its buffer, except that the last one stops at the end of the file. */
  predicate FullReads(got: seq<nat>, size: nat)
    requires |got| == TotalChunks(size)
  {
    forall i :: 0 <= i < |got| ==> got[i] == Min(CHUNK_SIZE, size - i * CHUNK_SIZE)
  }

  lemma {:induction false} TakenFull(got: seq<nat>, size: nat, n: nat)
    requires |got| == TotalChunks(size) && FullReads(got, size) && n <= |got|
    ensures Taken(got, n) == Min(n * CHUNK_SIZE, size)
  {
    if n > 0 { TakenFull(got, size, n - 1); }
  }

  /**
   The dispatcher makes TotalChunks reads and announces offset (i-1)*CHUNK_SIZE whatever
   they returned; the announced offsets are the true ones exactly when all reads are full.
   */
  lemma AlignedIffFullReads(got: seq<nat>, size: nat)
    requires |got| == TotalChunks(size)
    ensures Aligned(got, size) <==> FullReads(got, size)
  {
    if FullReads(got, size) {
      forall n | 0 <= n <= |got| ensures Taken(got, n) == Min(n * CHUNK_SIZE, size) {
        TakenFull(got, size, n);
      }
    }
    if Aligned(got, size) {
      forall i | 0 <= i < |got| ensures got[i] == Min(CHUNK_SIZE, size - i * CHUNK_SIZE) {
        assert Taken(got, i + 1) == Taken(got, i) + got[i];
      }
    }
  }
}
