/** Lexicographic order of strings, and sorting a set of keys by it. */
module KeyOrder {

  predicate Less(a: string, b: string) {
    b != "" && (a == "" || a[0] < b[0] || (a[0] == b[0] && Less(a[1..], b[1..])))
  }

  lemma {:induction false} LessTotal(a: string, b: string)
    ensures a == b || Less(a, b) || Less(b, a)
    decreases |a|
  {
    if a != "" && b != "" && a[0] == b[0] {
      LessTotal(a[1..], b[1..]);
      assert a == [a[0]] + a[1..] && b == [b[0]] + b[1..];
    }
  }

  lemma {:induction false} LessTransitive(a: string, b: string, c: string)
    requires Less(a, b) && Less(b, c)
    ensures Less(a, c)
    decreases |a|
  {
    if a != "" && a[0] == b[0] && b[0] == c[0] {
      LessTransitive(a[1..], b[1..], c[1..]);
    }
  }

  lemma {:induction false} LessIrreflexive(a: string)
    ensures !Less(a, a)
  {
    if a != "" { LessIrreflexive(a[1..]); }
  }

  /** Less is the order of dictionaries: a proper prefix, or smaller at the first difference. */
  lemma {:induction false} LessIff(a: string, b: string)
    ensures Less(a, b) <==>
            exists k :: 0 <= k <= |a| && k < |b| && a[..k] == b[..k] && (k == |a| || a[k] < b[k])
    decreases |a|
  {
    if Less(a, b) {
      var k := FirstDifference(a, b);
    }
    forall k | 0 <= k <= |a| && k < |b| && a[..k] == b[..k] && (k == |a| || a[k] < b[k]) ensures Less(a, b) {
      DifferenceDecides(a, b, k);
    }
  }

  lemma {:induction false} FirstDifference(a: string, b: string) returns (k: nat)
    requires Less(a, b)
    ensures k <= |a| && k < |b| && a[..k] == b[..k] && (k == |a| || a[k] < b[k])
  {
    k := 0;
    if a != "" && a[0] == b[0] {
      k := FirstDifference(a[1..], b[1..]);
      k := k + 1;
      assert a[..k] == [a[0]] + a[1..][..k - 1] && b[..k] == [b[0]] + b[1..][..k - 1];
    }
  }

  lemma {:induction false} DifferenceDecides(a: string, b: string, k: nat)
    requires k <= |a| && k < |b| && a[..k] == b[..k] && (k == |a| || a[k] < b[k])
    ensures Less(a, b)
    decreases k
  {
    if k > 0 {
      assert a[0] == a[..k][0] && b[0] == b[..k][0];
      assert a[1..][..k - 1] == a[..k][1..] && b[1..][..k - 1] == b[..k][1..];
      DifferenceDecides(a[1..], b[1..], k - 1);
    }
  }

  predicate Sorted(keys: seq<string>) {
    forall i, j :: 0 <= i < j < |keys| ==> Less(keys[i], keys[j])
  }

  function Insert(keys: seq<string>, k: string): seq<string> {
    if keys == [] then [k]
    else if Less(k, keys[0]) then [k] + keys
    else [keys[0]] + Insert(keys[1..], k)
  }

  lemma {:induction false} InsertMembers(keys: seq<string>, k: string, x: string)
    ensures x in Insert(keys, k) <==> x in keys || x == k
  {
    if keys != [] { InsertMembers(keys[1..], k, x); }
  }

  lemma {:induction false} InsertSorted(keys: seq<string>, k: string)
    requires Sorted(keys) && k !in keys
    ensures Sorted(Insert(keys, k))
  {
    if keys == [] {
      assert Sorted([k]);
    } else if Less(k, keys[0]) {
      forall x | x in keys ensures Less(k, x) {
        var i :| 0 <= i < |keys| && keys[i] == x;
        if i > 0 { LessTransitive(k, keys[0], x); }
      }
    } else {
      var tail := keys[1..];
      InsertSorted(tail, k);
      LessTotal(k, keys[0]);
      forall x | x in Insert(tail, k) ensures Less(keys[0], x) {
        InsertMembers(tail, k, x);
        if x != k {
          var i :| 0 <= i < |tail| && tail[i] == x;
          assert keys[i + 1] == x;
        }
      }
    }
  }

  /** sort.Strings on the keys of a map. */
  method Sort(ks: set<string>) returns (keys: seq<string>)
    ensures Sorted(keys) && forall k :: k in keys <==> k in ks
  {
    keys := [];
    var rest := ks;
    while rest != {}
      invariant rest <= ks && Sorted(keys)
      invariant forall k :: k in keys <==> k in ks && k !in rest
      decreases |rest|
    {
      var k :| k in rest;
      InsertSorted(keys, k);
      forall x ensures x in Insert(keys, k) <==> x in ks && x !in rest - {k} {
        InsertMembers(keys, k, x);
      }
      keys := Insert(keys, k);
      rest := rest - {k};
    }
  }

  /** There is only one sorted list of a set of keys. */
  lemma {:induction false} SortedUnique(a: seq<string>, b: seq<string>)
    requires Sorted(a) && Sorted(b) && forall k :: k in a <==> k in b
    ensures a == b
    decreases |a|
  {
    if a == [] {
      assert forall i :: 0 <= i < |b| ==> b[i] in b;
    } else {
      assert a[0] in b;
      HeadEqual(a, b);
      forall k ensures k in a[1..] <==> k in b[1..] {
        TailMembers(a, k);
        TailMembers(b, k);
      }
      SortedUnique(a[1..], b[1..]);
      assert a == [a[0]] + a[1..] && b == [b[0]] + b[1..];
    }
  }

  lemma HeadEqual(a: seq<string>, b: seq<string>)
    requires Sorted(a) && Sorted(b) && a != [] && b != [] && a[0] in b && b[0] in a
    ensures a[0] == b[0]
  {
    var i :| 0 <= i < |b| && b[i] == a[0];
    var j :| 0 <= j < |a| && a[j] == b[0];
    if i > 0 && j > 0 {
      LessTransitive(a[0], b[0], a[0]);
      LessIrreflexive(a[0]);
    }
  }

  lemma TailMembers(a: seq<string>, k: string)
    requires Sorted(a) && a != []
    ensures k in a[1..] <==> k in a && k != a[0]
  {
    LessIrreflexive(a[0]);
    if k in a[1..] {
      var i :| 0 <= i < |a[1..]| && a[1..][i] == k;
      assert a[i + 1] == k;
    }
  }

  // ------------------------------------------------------ lists with repetitions

  predicate Ordered(keys: seq<string>) {
    forall i, j :: 0 <= i < j < |keys| ==> !Less(keys[j], keys[i])
  }

  lemma {:induction false} InsertAdds(keys: seq<string>, k: string)
    ensures multiset(Insert(keys, k)) == multiset(keys) + multiset{k}
  {
    if keys != [] && !Less(k, keys[0]) {
      InsertAdds(keys[1..], k);
      assert keys == [keys[0]] + keys[1..];
    }
  }

  lemma {:induction false} InsertOrdered(keys: seq<string>, k: string)
    requires Ordered(keys)
    ensures Ordered(Insert(keys, k))
  {
    if keys == [] {
      assert Ordered([k]);
    } else if Less(k, keys[0]) {
      forall x | x in keys ensures !Less(x, k) {
        var i :| 0 <= i < |keys| && keys[i] == x;
        assert !Less(x, keys[0]) by { LessIrreflexive(x); }
        if Less(x, k) { LessTransitive(x, k, keys[0]); }
      }
    } else {
      var tail := keys[1..];
      InsertOrdered(tail, k);
      forall x | x in Insert(tail, k) ensures !Less(x, keys[0]) {
        InsertMembers(tail, k, x);
        if x != k {
          var i :| 0 <= i < |tail| && tail[i] == x;
          assert keys[i + 1] == x;
        }
      }
    }
  }

  /** sort.Strings on a list. */
  method SortList(ks: seq<string>) returns (keys: seq<string>)
    ensures Ordered(keys) && multiset(keys) == multiset(ks)
  {
    keys := [];
    for i := 0 to |ks|
      invariant Ordered(keys) && multiset(keys) == multiset(ks[..i])
    {
      assert ks[..i + 1] == ks[..i] + [ks[i]];
      InsertOrdered(keys, ks[i]);
      InsertAdds(keys, ks[i]);
      keys := Insert(keys, ks[i]);
    }
    assert ks[..|ks|] == ks;
  }
}
