/**
 The page-pick list of the manga sampler: the cover plus evenly spaced interior pages,
 without repetition.
 */
module PagePicks {
  import opened Numbers

  predicate StrictlyIncreasing(s: seq<int>) {
    forall i, j :: 0 <= i < j < |s| ==> s[i] < s[j]
  }

  /** Offset of the i-th of n samples over `span` pages. */
  function Spread(span: nat, i: nat, n: nat): nat
    requires n > 0
  {
    span * i / n
  }

  lemma MultipleBound(d: int, n: int)
    requires n > 0
    ensures d >= 1 ==> d * n >= n
    ensures d <= -1 ==> d * n <= -n
  {
  }

  /** q is the quotient of a by n. */
  lemma Quotient(a: int, n: int, q: int)
    requires n > 0 && q * n <= a < q * n + n
    ensures a / n == q
  {
    var r := a - q * n;
    assert a == q * n + r && 0 <= r < n;
    assert a == (a / n) * n + a % n;
    assert (a / n - q) * n == r - a % n;
    MultipleBound(a / n - q, n);
  }

  /** One more sample moves on by at least one page when there are enough pages, by at most
      one when there are not more than samples. */
  lemma SpreadStep(span: nat, i: nat, n: nat)
    requires n > 0
    ensures span >= n ==> Spread(span, i + 1, n) >= Spread(span, i, n) + 1
    ensures span <= n ==> Spread(span, i, n) <= Spread(span, i + 1, n) <= Spread(span, i, n) + 1
  {
    var a, b := span * i, span * (i + 1);
    assert b == a + span;
    var q := a / n;
    assert a == q * n + a % n;
    if span >= n {
      DivMono(a + n, b, n);
      Quotient(a + n, n, q + 1);
    }
    if span <= n {
      DivMono(a, b, n);
      DivMono(b, a + n, n);
      Quotient(a + n, n, q + 1);
    }
  }

  lemma DivMono(a: int, b: int, n: int)
    requires n > 0 && a <= b
    ensures a / n <= b / n
  {
    var p, q := a / n, b / n;
    assert a == p * n + a % n && b == q * n + b % n;
    assert (p - q) * n == p * n - q * n;
    MultipleBound(p - q, n);
  }

  lemma SpreadZero(span: nat, n: nat)
    requires n > 0
    ensures Spread(span, 0, n) == 0
  {
  }

  /** The last sample stays inside the span, and reaches its last page when pages are scarce. */
  lemma SpreadLast(span: nat, n: nat)
    requires n > 0 && span > 0
    ensures Spread(span, n - 1, n) < span
    ensures span <= n ==> Spread(span, n - 1, n) == span - 1
  {
    var a := span * (n - 1);
    assert a == span * n - span;
    DivMono(a, span * n - 1, n);
    Quotient(span * n - 1, n, span - 1) by { assert (span - 1) * n == span * n - n; }
    if span <= n {
      Quotient(a, n, span - 1) by { assert (span - 1) * n == span * n - n; }
    }
  }

  lemma {:induction false} SpreadBelow(span: nat, i: nat, n: nat)
    requires n > 0 && span > 0 && i < n
    ensures Spread(span, i, n) < span
  {
    SpreadLast(span, n);
    assert span * i <= span * (n - 1);
    DivMono(span * i, span * (n - 1), n);
  }

  /** Neighbouring samples are span / n pages apart, rounded down or up. */
  lemma SpreadGap(span: nat, i: nat, n: nat)
    requires n > 0
    ensures span / n <= Spread(span, i + 1, n) - Spread(span, i, n) <= span / n + 1
  {
    var a, b := span * i, span * (i + 1);
    assert b == a + span;
    var p, q := a / n, span / n;
    assert a == p * n + a % n && span == q * n + span % n;
    assert (p + q) * n == p * n + q * n && (p + q + 1) * n == p * n + q * n + n;
    if a % n + span % n < n { Quotient(b, n, p + q); } else { Quotient(b, n, p + q + 1); }
  }

  /**
   From index `first` on there are n picks. They start at the margin m, leave the same margin at the
   end, and are the same number of pages apart, give or take one.
   */
  predicate EvenlySpread(picks: seq<int>, first: nat, total: nat, m: nat, n: nat)
    requires n > 0
  {
    && |picks| == first + n && picks[first] == m
    && (forall i :: first <= i < |picks| ==> m <= picks[i] < total - m)
    && (forall i :: first <= i < |picks| - 1 ==>
          (total - 2 * m) / n <= picks[i + 1] - picks[i] <= (total - 2 * m) / n + 1)
  }

  /** The picks from `first` on are the samples. */
  ghost predicate Sampled(picks: seq<int>, first: nat, start: nat, span: nat, n: nat)
    requires n > 0
  {
    forall i :: first <= i < |picks| ==> picks[i] == start + Spread(span, i - first, n)
  }

  lemma SamplesAreEven(picks: seq<int>, first: nat, total: nat, m: nat, n: nat)
    requires n > 0 && 2 * m < total && |picks| == first + n && Sampled(picks, first, m, total - 2 * m, n)
    ensures EvenlySpread(picks, first, total, m, n)
  {
    var span := total - 2 * m;
    SpreadZero(span, n);
    assert picks[first] == m + Spread(span, first - first, n);
    forall i | first <= i < |picks| ensures m <= picks[i] < total - m { SpreadBelow(span, i - first, n); }
    forall i | first <= i < |picks| - 1 ensures span / n <= picks[i + 1] - picks[i] <= span / n + 1 {
      SpreadGap(span, i - first, n);
      assert picks[i + 1] == m + Spread(span, i - first + 1, n);
    }
  }

  /** The `add` closure: appends an index that is in range and not yet picked. */
  method Add(total: nat, picks: seq<int>, seen: set<int>, idx: int) returns (picks': seq<int>, seen': set<int>)
    ensures if 0 <= idx < total && idx !in seen then picks' == picks + [idx] && seen' == seen + {idx}
            else picks' == picks && seen' == seen
  {
    if idx < 0 || idx >= total || idx in seen {
      return picks, seen;
    }
    return picks + [idx], seen + {idx};
  }

  /** Picks so far: increasing from the cover to `last`, all remembered in `seen`. */
  ghost predicate PicksTo(total: nat, picks: seq<int>, seen: set<int>, last: int) {
    && |picks| >= 1 && picks[0] == 0 && picks[|picks| - 1] == last && last < total
    && StrictlyIncreasing(picks)
    && (forall x :: x in seen ==> 0 <= x <= last) && last in seen
  }

  lemma ExtendPicks(total: nat, picks: seq<int>, seen: set<int>, last: int, idx: int)
    requires PicksTo(total, picks, seen, last) && last < idx < total
    ensures idx !in seen && PicksTo(total, picks + [idx], seen + {idx}, idx)
  {
  }

  /** The loop over the interior samples, after the cover. */
  method AddSamples(total: nat, start: nat, span: nat, n: nat) returns (picks: seq<int>)
    requires total >= 1 && n >= 1 && span > 0 && start + span <= total
    requires span < n ==> start + span == total && start <= 1
    ensures |picks| >= 1 && picks[0] == 0 && StrictlyIncreasing(picks)
    ensures picks[|picks| - 1] < total
    ensures span >= n ==>
              var first := if start == 0 then 0 else 1;
              |picks| == first + n && Sampled(picks, first, start, span, n)
    ensures span < n ==> |picks| == total
  {
    var seen: set<int>;
    picks, seen := Add(total, [], {}, 0);
    ghost var last := 0;
    for i := 0 to n
      invariant PicksTo(total, picks, seen, last)
      invariant last == if i == 0 then 0 else start + Spread(span, i - 1, n)
      invariant span >= n ==> |picks| == 1 + i - if start == 0 && i > 0 then 1 else 0
      invariant span < n ==> |picks| == last + 1
      invariant span >= n && start > 0 ==> Sampled(picks, 1, start, span, n)
      invariant span >= n && start == 0 && i > 0 ==> Sampled(picks, 0, 0, span, n)
    {
      var idx := start + span * i / n;
      assert idx == start + Spread(span, i, n);
      SpreadBelow(span, i, n);
      SpreadZero(span, n);
      if i > 0 { SpreadStep(span, i - 1, n); }
      if last < idx { ExtendPicks(total, picks, seen, last, idx); }
      picks, seen := Add(total, picks, seen, idx);
      last := idx;
    }
    if span < n { SpreadLast(span, n); }
  }

  /**
   The pick list for `total` pages. The picks are distinct, in reading order, start with the
   cover, and are as many as asked for as long as the archive has enough pages; below twenty
   pages the 5% margin is empty and the first interior sample falls on the cover. With enough
   pages the interior picks are evenly spread between the margins.
   */
  method Picks(total: nat, wanted: int) returns (picks: seq<int>)
    requires total >= 1
    ensures |picks| >= 1 && picks[0] == 0 && StrictlyIncreasing(picks)
    ensures forall i :: 0 <= i < |picks| ==> 0 <= picks[i] < total
    ensures var count := if wanted <= 0 then 6 else wanted;
            |picks| == if count == 1 then 1 else if total >= 20 then Min(total, count) else Min(total, count - 1)
    ensures var n, m := (if wanted <= 0 then 6 else wanted) - 1, total * 5 / 100;
            n >= 1 && total - 2 * m >= n ==> EvenlySpread(picks, if m == 0 then 0 else 1, total, m, n)
  {
    var count := if wanted <= 0 then 6 else wanted;
    picks := [0];
    var interior := count - 1;
    if interior > 0 {
      var start := total * 5 / 100;
      var end := total - total * 5 / 100;
      if end - start < interior {
        start := 1;
        end := total;
      }
      var span := end - start;
      if span <= 0 {
        span := total;
        start := 0;
      }
      picks := AddSamples(total, start, span, interior);
      var m := total * 5 / 100;
      if total - 2 * m >= interior {
        SamplesAreEven(picks, if m == 0 then 0 else 1, total, m, interior);
      }
    }
    forall i | 0 <= i < |picks| ensures 0 <= picks[i] < total {
      if i > 0 { assert picks[0] < picks[i]; }
      if i < |picks| - 1 { assert picks[i] < picks[|picks| - 1]; }
    }
  }
}
