/** The string operations the agent uses: trimming and lower-casing. */
module Text {

  /** White space as Go's unicode.IsSpace has it. */
  predicate IsSpace(c: char) {
    || '\t' <= c <= '\r' || c == ' ' || c == '\U{85}' || c == '\U{A0}' || c == '\U{1680}'
    || '\U{2000}' <= c <= '\U{200a}' || c == '\U{2028}' || c == '\U{2029}' || c == '\U{202f}'
    || c == '\U{205f}' || c == '\U{3000}'
  }

  // -------------------------------------------------------------- trimming

  /** The first index from `i` on whose character is not dropped, or |s|. */
  function SkipFrom(s: string, drop: char -> bool, i: nat): (n: nat)
    requires i <= |s|
    ensures i <= n <= |s|
    ensures n < |s| ==> !drop(s[n])
    ensures forall k :: i <= k < n ==> drop(s[k])
    decreases |s| - i
  {
    if i == |s| || !drop(s[i]) then i else SkipFrom(s, drop, i + 1)
  }

  /** The end of s[..n] without its trailing dropped characters, not below `low`. */
  function KeepTo(s: string, drop: char -> bool, low: nat, n: nat): (e: nat)
    requires low <= n <= |s|
    ensures low <= e <= n
    ensures e > low ==> !drop(s[e - 1])
    ensures forall k :: e <= k < n ==> drop(s[k])
    decreases n
  {
    if n == low || !drop(s[n - 1]) then n else KeepTo(s, drop, low, n - 1)
  }

  /** Cuts the characters that satisfy `drop` off both ends. */
  function TrimBy(s: string, drop: char -> bool): string {
    var a := SkipFrom(s, drop, 0);
    s[a..KeepTo(s, drop, a, |s|)]
  }

  predicate TrimmedBy(s: string, drop: char -> bool) {
    s != "" ==> !drop(s[0]) && !drop(s[|s| - 1])
  }

  predicate AllOf(s: string, drop: char -> bool) { forall i :: 0 <= i < |s| ==> drop(s[i]) }

  /** What was cut off consists of dropped characters; what is left is trimmed. */
  lemma TrimParts(s: string, drop: char -> bool) returns (a: string, b: string)
    ensures s == a + TrimBy(s, drop) + b
    ensures AllOf(a, drop) && AllOf(b, drop) && TrimmedBy(TrimBy(s, drop), drop)
  {
    var i := SkipFrom(s, drop, 0);
    var e := KeepTo(s, drop, i, |s|);
    a, b := s[..i], s[e..];
    assert e == i ==> i == |s|;
  }

  /** The trimmed middle of any such decomposition is the result. */
  lemma TrimMiddle(a: string, m: string, b: string, drop: char -> bool)
    requires AllOf(a, drop) && AllOf(b, drop) && TrimmedBy(m, drop)
    ensures TrimBy(a + m + b, drop) == m
  {
    var s := a + m + b;
    var i := SkipFrom(s, drop, 0);
    var e := KeepTo(s, drop, i, |s|);
    if m == "" {
      assert forall k :: 0 <= k < |s| ==> drop(s[k]) by {
        forall k | 0 <= k < |s| ensures drop(s[k]) {
          assert s[k] == if k < |a| then a[k] else b[k - |a|];
        }
      }
    } else {
      assert s[|a|] == m[0] && s[|a| + |m| - 1] == m[|m| - 1];
      assert forall k :: 0 <= k < |a| ==> s[k] == a[k];
      assert i == |a|;
      forall k | |a| + |m| <= k < |s| ensures drop(s[k]) {
        assert s[k] == b[k - |a| - |m|];
      }
      assert e == |a| + |m|;
    }
  }

  lemma TrimNothing(m: string, drop: char -> bool)
    requires TrimmedBy(m, drop)
    ensures TrimBy(m, drop) == m
  {
  }

  /** Padding of dropped characters does not change the result. */
  lemma TrimPad(x: string, s: string, y: string, drop: char -> bool)
    requires AllOf(x, drop) && AllOf(y, drop)
    ensures TrimBy(x + s + y, drop) == TrimBy(s, drop)
  {
    var m := TrimBy(s, drop);
    var a, b := TrimParts(s, drop);
    Regroup(x, a, m, b, y);
    var a', b' := x + a, b + y;
    TrimMiddle(a', m, b', drop);
  }

  lemma Regroup(x: string, a: string, m: string, b: string, y: string)
    ensures x + (a + m + b) + y == (x + a) + m + (b + y)
  {
  }

  function TrimSpace(s: string): string { TrimBy(s, IsSpace) }

  predicate Trimmed(s: string) { TrimmedBy(s, IsSpace) }

  /** TrimSpace yields a trimmed string and leaves exactly the trimmed strings alone. */
  lemma TrimSpaceTrims(s: string)
    ensures Trimmed(TrimSpace(s))
    ensures TrimSpace(s) == s <==> Trimmed(s)
  {
  }

  // ---------------------------------------------------------- lower-casing

  function LowerChar(c: char): char {
    if 'A' <= c <= 'Z' then (c as int + 32) as char else c
  }

  /** ASCII lower case. */
  function ToLower(s: string): (r: string)
    ensures |r| == |s|
    ensures forall i :: 0 <= i < |s| ==> r[i] == LowerChar(s[i])
  {
    seq(|s|, i requires 0 <= i < |s| => LowerChar(s[i]))
  }

  predicate IsLower(s: string) { forall i :: 0 <= i < |s| ==> !('A' <= s[i] <= 'Z') }

  lemma ToLowerLowers(s: string)
    ensures IsLower(ToLower(s))
    ensures ToLower(s) == s <==> IsLower(s)
  {
  }

  lemma TrimKeepsLower(l: string)
    requires IsLower(l)
    ensures IsLower(TrimSpace(l))
  {
  }

  /** Samples of white space and of lower-casing. */
  lemma TextSamples()
    ensures IsSpace(' ') && IsSpace('\t') && IsSpace('\n') && IsSpace('\r') && IsSpace('\U{a0}') && IsSpace('\U{3000}')
    ensures !IsSpace('a') && !IsSpace('0') && !IsSpace('.') && !IsSpace('\U{200b}')
    ensures ToLower("AZaz09") == "azaz09"
  {
  }
}
