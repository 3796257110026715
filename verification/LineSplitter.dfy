/**
 The incremental line splitter for par2 output: a split function that ends a line at
 LF, CR LF or a bare CR, driven by a scanner that feeds it whatever the pipe delivered.
 */
module LineSplitter {
  import opened Wrappers
  import opened Text

  predicate IsBreak(c: char) { c == '\r' || c == '\n' }

  /** The index of the first CR or LF at or after `from`, or |s|. */
  function NextBreak(s: string, from: nat): (i: nat)
    requires from <= |s|
    ensures from <= i <= |s| && (i < |s| ==> IsBreak(s[i]))
    ensures forall k :: from <= k < i ==> !IsBreak(s[k])
    decreases |s| - from
  {
    if from == |s| || IsBreak(s[from]) then from else NextBreak(s, from + 1)
  }

  /** The number of characters before the first CR or LF. */
  function FirstBreak(s: string): nat { NextBreak(s, 0) }

  /** How far to advance and the token, if there is one yet. */
  function Scan(data: string, atEOF: bool): (nat, Option<string>) {
    var i := FirstBreak(data);
    if i < |data| then
      (if data[i] == '\r' && i + 1 < |data| && data[i + 1] == '\n' then i + 2 else i + 1, Some(data[..i]))
    else if atEOF && data != "" then (|data|, Some(data))
    else (0, None)
  }

  /** scanLinesOrCR */
  method ScanLinesOrCR(data: string, atEOF: bool) returns (advance: nat, token: Option<string>)
    ensures (advance, token) == Scan(data, atEOF)
  {
    if atEOF && |data| == 0 {
      return 0, None;
    }
    for i := 0 to |data|
      invariant forall k :: 0 <= k < i ==> !IsBreak(data[k])
    {
      if data[i] == '\n' {
        return i + 1, Some(data[..i]);
      }
      if data[i] == '\r' {
        if i + 1 < |data| && data[i + 1] == '\n' {
          return i + 2, Some(data[..i]);
        }
        return i + 1, Some(data[..i]);
      }
    }
    if atEOF {
      return |data|, Some(data);
    }
    return 0, None;
  }

  // --------------------------------------------------------- specification

  /** The whole stream cut at every CR and at every LF. */
  function Pieces(s: string): seq<string>
    decreases |s|
  {
    var i := FirstBreak(s);
    if i == |s| then [s] else [s[..i]] + Pieces(s[i + 1..])
  }

  predicate IsCrOrLf(c: char) { c == '\r' || c == '\n' }

  function Breaks(s: string): nat {
    if s == "" then 0 else (if IsCrOrLf(s[0]) then 1 else 0) + Breaks(s[1..])
  }

  /** The characters other than CR and LF. */
  function Unbroken(s: string): string {
    if s == "" then "" else (if IsCrOrLf(s[0]) then "" else [s[0]]) + Unbroken(s[1..])
  }

  /** Before position i there is no break. */
  lemma {:induction false} PlainPrefix(s: string, i: nat)
    requires i <= |s| && forall k :: 0 <= k < i ==> !IsCrOrLf(s[k])
    ensures Breaks(s) == Breaks(s[i..]) && Unbroken(s) == s[..i] + Unbroken(s[i..])
  {
    if i > 0 {
      PlainPrefix(s[1..], i - 1);
      assert s[1..][i - 1..] == s[i..] && [s[0]] + s[1..][..i - 1] == s[..i];
    } else {
      assert s[0..] == s;
    }
  }

  lemma {:induction false} PiecesPlain(s: string)
    ensures forall i :: 0 <= i < |Pieces(s)| ==> '\r' !in Pieces(s)[i] && '\n' !in Pieces(s)[i]
    decreases |s|
  {
    if FirstBreak(s) < |s| { PiecesPlain(s[FirstBreak(s) + 1..]); }
  }

  /** There is one more piece than breaks, and together the pieces are the rest of the stream. */
  lemma {:induction false} PiecesAre(s: string)
    ensures |Pieces(s)| == Breaks(s) + 1 && Concat(Pieces(s)) == Unbroken(s)
    decreases |s|
  {
    var i := FirstBreak(s);
    PlainPrefix(s, i);
    if i == |s| {
      ConcatCons(s, []);
    } else {
      PiecesAre(s[i + 1..]);
      assert s[i..][1..] == s[i + 1..];
      ConcatCons(s[..i], Pieces(s[i + 1..]));
    }
  }

  lemma ConcatCons(x: string, rest: seq<string>)
    ensures Concat([x] + rest) == x + Concat(rest) && [x] + [] == [x]
  {
    assert ([x] + rest)[1..] == rest;
  }

  /** What is kept of a line: nothing if it is blank, else its trimmed text. */
  function Kept(line: string): seq<string> {
    var t := TrimSpace(line);
    if t == "" then [] else [t]
  }

  /** What `keep` keeps of each line, in order. */
  function KeptLines(lines: seq<string>, keep: string -> seq<string>): seq<string> {
    if lines == [] then [] else keep(lines[0]) + KeptLines(lines[1..], keep)
  }

  function Concat(chunks: seq<string>): string {
    if chunks == [] then "" else chunks[0] + Concat(chunks[1..])
  }

  /** The lines a reader of the complete stream should see. */
  function LinesOf(s: string, keep: string -> seq<string>): seq<string> { KeptLines(Pieces(s), keep) }

  // --------------------------------------------------------------- proofs

  lemma FirstBreakAppend(a: string, b: string)
    requires FirstBreak(a) < |a|
    ensures FirstBreak(a + b) == FirstBreak(a)
  {
    var i, j := FirstBreak(a), FirstBreak(a + b);
    assert (a + b)[i] == a[i];
    assert i <= j by { assert forall k :: 0 <= k < i ==> (a + b)[k] == a[k]; }
  }

  lemma BlankHead(s: string, keep: string -> seq<string>)
    requires s != "" && IsBreak(s[0]) && keep("") == []
    ensures LinesOf(s, keep) == LinesOf(s[1..], keep)
  {
  }

  lemma LastLine(s: string, keep: string -> seq<string>)
    requires FirstBreak(s) == |s|
    ensures LinesOf(s, keep) == keep(s)
  {
    var ls := Pieces(s);
    assert ls == [s] && ls[1..] == [];
    assert KeptLines(ls, keep) == keep(s) + KeptLines(ls[1..], keep);
  }

  /** A token found in the buffer is the stream's next line, up to blank lines. */
  lemma ScanIsNextLine(buf: string, rest: string, atEOF: bool, keep: string -> seq<string>)
    requires FirstBreak(buf) < |buf| && keep("") == []
    ensures var (adv, tok) := Scan(buf, atEOF);
            && 0 < adv <= |buf| && tok.Some?
            && LinesOf(buf + rest, keep) == keep(tok.value) + LinesOf(buf[adv..] + rest, keep)
  {
    var s := buf + rest;
    var i := FirstBreak(buf);
    FirstBreakAppend(buf, rest);
    assert s[..i] == buf[..i];
    var t := s[i + 1..];
    assert t == buf[i + 1..] + rest;
    var (adv, _) := Scan(buf, atEOF);
    if adv == i + 2 {
      assert t[0] == buf[i + 1];
      BlankHead(t, keep);
      assert t[1..] == buf[adv..] + rest;
    }
  }

  /** One turn of the scanner: a token, more input, or the end. */
  lemma ScanStep(buf: string, chunks: seq<string>, i: nat, keep: string -> seq<string>)
    requires i <= |chunks| && keep("") == []
    ensures var (adv, tok) := Scan(buf, i == |chunks|);
            var now := LinesOf(buf + Concat(chunks[i..]), keep);
            if tok.Some? then
              0 < adv <= |buf| && now == keep(tok.value) + LinesOf(buf[adv..] + Concat(chunks[i..]), keep)
            else if i == |chunks| then now == []
            else now == LinesOf(buf + chunks[i] + Concat(chunks[i + 1..]), keep)
  {
    var rest := Concat(chunks[i..]);
    if FirstBreak(buf) < |buf| {
      ScanIsNextLine(buf, rest, i == |chunks|, keep);
    } else if i == |chunks| {
      assert buf + rest == buf;
      LastLine(buf, keep);
      LastLine("", keep);
      assert buf[|buf|..] + rest == "";
    } else {
      assert chunks[i..][0] == chunks[i] && chunks[i..][1..] == chunks[i + 1..];
      assert buf + (chunks[i] + Concat(chunks[i + 1..])) == buf + chunks[i] + Concat(chunks[i + 1..]);
    }
  }

  /** The scanner over a reader that hands out `chunks`, with what its loop body keeps. */
  method ScanStream(chunks: seq<string>, keep: string -> seq<string>) returns (lines: seq<string>)
    requires keep("") == []
    ensures lines == LinesOf(Concat(chunks), keep)
  {
    lines := [];
    var buf, i := "", 0;
    ghost var whole := LinesOf(Concat(chunks), keep);
    assert chunks[0..] == chunks && "" + Concat(chunks) == Concat(chunks);
    while true
      invariant 0 <= i <= |chunks|
      invariant lines + LinesOf(buf + Concat(chunks[i..]), keep) == whole
      decreases |chunks| - i, |buf|
    {
      ScanStep(buf, chunks, i, keep);
      var advance, token := ScanLinesOrCR(buf, i == |chunks|);
      if token.Some? {
        lines := lines + keep(token.value);
        buf := buf[advance..];
      } else if i == |chunks| {
        break;
      } else {
        buf := buf + chunks[i];
        i := i + 1;
      }
    }
  }

  /**
   parsePAR2Progress without the percentage callback: whatever buffers the reader hands
   out, split anywhere (between CR and LF too), the kept lines are those of the stream.
   */
  method ParseProgress(chunks: seq<string>) returns (lines: seq<string>)
    ensures lines == LinesOf(Concat(chunks), Kept)
    ensures forall i :: 0 <= i < |lines| ==> lines[i] != "" && Trimmed(lines[i])
  {
    TrimNothing("", IsSpace);
    lines := ScanStream(chunks, Kept);
    KeptAreTrimmed(Pieces(Concat(chunks)));
  }

  lemma {:induction false} KeptAreTrimmed(lines: seq<string>)
    ensures forall i :: 0 <= i < |KeptLines(lines, Kept)| ==>
              KeptLines(lines, Kept)[i] != "" && Trimmed(KeptLines(lines, Kept)[i])
  {
    if lines != [] {
      TrimSpaceTrims(lines[0]);
      KeptAreTrimmed(lines[1..]);
    }
  }
}
