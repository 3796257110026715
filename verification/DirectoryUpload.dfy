/**
 The upload of a directory: file after file, with one running count of the bytes uploaded.
 The reports of that count grow strictly, never pass the directory's size, and reach it
 exactly when every file went through.
 */
module DirectoryUpload {
  import opened Wrappers
  import opened YEnc
  import opened Reassembly
  import opened Upload
  import Pool = UploadPool

  /** What the pool did with one file: the segments collected, in order, and whether it returned them. */
  datatype FileRun = FileRun(collected: seq<nat>, ok: bool)

  ghost predicate Once(q: seq<nat>, n: nat) { forall j: nat :: Pool.Occ(q, j) <= if 1 <= j <= n then 1 else 0 }

  /** Parts of the file, each at most once, and all of them on success. */
  ghost predicate RunOk(file: seq<byte>, r: FileRun) {
    && PartNumbers(|file|, r.collected)
    && Once(r.collected, TotalChunks(|file|))
    && (r.ok ==> SegmentBytes(file, r.collected) == |file|)
  }

  /** Every run of the pool has this form. */
  lemma PoolRunOk(file: seq<byte>, workers: nat, s: Pool.State)
    requires workers >= 1 && Pool.Reachable(PoolFor(file, workers), s)
    ensures RunOk(file, FileRun(s.segments, s.coll == Pool.Returned(true)))
  {
    var c := PoolFor(file, workers);
    Pool.ReachableInv(c, s);
    forall j: nat ensures Pool.Occ(s.segments, j) <= if 1 <= j <= c.total then 1 else 0 {
      assert Pool.Count(s, j) == if 1 <= j <= s.sent then 1 else 0;
    }
    forall k | 0 <= k < |s.segments| ensures 1 <= s.segments[k] <= c.total {
      OccIn(s.segments, s.segments[k]);
      assert s.segments[k] in s.segments;
    }
    if s.coll == Pool.Returned(true) {
      BytesOfPermutation(file, s.segments, c.total);
      SizesAddUp(file, c.total);
    }
  }

  // ----------------------------------------------------------- byte counts

  lemma RunBytes(file: seq<byte>, r: FileRun)
    requires RunOk(file, r)
    ensures SegmentBytes(file, r.collected) <= |file|
  {
    DistinctBytes(file, r.collected, TotalChunks(|file|));
    SizesAddUp(file, TotalChunks(|file|));
  }

  /** The next collected segment adds its chunk, which is not empty. */
  lemma NextSegment(file: seq<byte>, q: seq<nat>, k: nat)
    requires PartNumbers(|file|, q) && k < |q|
    ensures PartNumbers(|file|, q[..k]) && PartNumbers(|file|, q[..k + 1])
    ensures SegmentBytes(file, q[..k + 1]) == SegmentBytes(file, q[..k]) + |Chunk(file, q[k])|
    ensures SegmentBytes(file, q[..k + 1]) <= SegmentBytes(file, q)
  {
    assert q[..k + 1] == q[..k] + [q[k]];
    assert [q[k]][1..] == [];
    BytesAppend(file, q[..k], [q[k]]);
    assert q == q[..k + 1] + q[k + 1..];
    BytesAppend(file, q[..k + 1], q[k + 1..]);
  }

  function TotalSize(files: seq<seq<byte>>): nat {
    if files == [] then 0 else TotalSize(files[..|files| - 1]) + |files[|files| - 1]|
  }

  lemma {:induction false} PrefixSize(files: seq<seq<byte>>, i: nat)
    requires i <= |files|
    ensures TotalSize(files[..i]) <= TotalSize(files)
    ensures i < |files| ==> TotalSize(files[..i]) + |files[i]| == TotalSize(files[..i + 1]) <= TotalSize(files)
    decreases |files| - i
  {
    if i < |files| {
      assert files[..i + 1][..i] == files[..i];
      PrefixSize(files, i + 1);
    } else {
      assert files[..i] == files;
    }
  }

  // -------------------------------------------------------------- the loops

  predicate Increasing(s: seq<int>) { forall i, j :: 0 <= i < j < |s| ==> s[i] < s[j] }

  /** Reports that grow strictly and end at `last`, or have not started. */
  predicate ReportsTo(reports: seq<int>, last: int) {
    && Increasing(reports)
    && (forall i :: 0 <= i < |reports| ==> 0 < reports[i] <= last)
    && (reports == [] ==> last == 0)
    && (reports != [] ==> reports[|reports| - 1] == last)
  }

  /** The collector's reports for one file, on top of the bytes of the files before it. */
  method ReportFile(file: seq<byte>, r: FileRun, cumulative: nat, before: seq<int>) returns (reports: seq<int>)
    requires RunOk(file, r) && ReportsTo(before, cumulative)
    ensures ReportsTo(reports, cumulative + SegmentBytes(file, r.collected))
    ensures |reports| == |before| + |r.collected|
  {
    reports := before;
    var uploaded := 0;
    for k := 0 to |r.collected|
      invariant uploaded == SegmentBytes(file, r.collected[..k])
      invariant ReportsTo(reports, cumulative + uploaded) && |reports| == |before| + k
    {
      NextSegment(file, r.collected, k);
      var more := uploaded + |Chunk(file, r.collected[k])|;
      uploaded := more;
      reports := reports + [cumulative + uploaded];
    }
    assert r.collected[..|r.collected|] == r.collected;
  }

  /** Fails on an empty directory and at the first file that fails. */
  method UploadDirectory(files: seq<seq<byte>>, runs: seq<FileRun>)
    returns (r: Option<seq<seq<nat>>>, reports: seq<int>)
    requires |runs| == |files| && forall i :: 0 <= i < |files| ==> RunOk(files[i], runs[i])
    ensures r.Some? <==> files != [] && forall i :: 0 <= i < |files| ==> runs[i].ok
    ensures r.Some? ==> |r.value| == |files| && forall i :: 0 <= i < |files| ==> r.value[i] == runs[i].collected
    ensures Increasing(reports) && forall i :: 0 <= i < |reports| ==> 0 < reports[i] <= TotalSize(files)
    ensures r.Some? ==> ReportsTo(reports, TotalSize(files))
  {
    reports := [];
    if |files| == 0 {
      return None, [];
    }
    var all: seq<seq<nat>> := [];
    var cumulative := 0;
    for i := 0 to |files|
      invariant cumulative == TotalSize(files[..i]) && ReportsTo(reports, cumulative)
      invariant |all| == i && forall j :: 0 <= j < i ==> runs[j].ok && all[j] == runs[j].collected
    {
      PrefixSize(files, i);
      RunBytes(files[i], runs[i]);
      reports := ReportFile(files[i], runs[i], cumulative, reports);
      if !runs[i].ok {
        return None, reports;
      }
      cumulative := cumulative + |files[i]|;
      all := all + [runs[i].collected];
    }
    assert files[..|files|] == files;
    r := Some(all);
  }
}
