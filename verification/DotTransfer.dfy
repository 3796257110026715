/**
 The transfer of an article: the dot writer of Go's net/textproto on the sending side and
 the multi-line data block of section 3.1.1 of RFC 3977 on the receiving side.
 */
module DotTransfer {
  import opened Wrappers
  import opened YEnc

  // ------------------------------------------------------------- the sender

  /** Where the writer is: at the start of a line, just after a CR that may end one, or inside. */
  datatype Mode = LineStart | AfterCR | InLine

  /** What is written for byte c: a dot before a leading dot, a CR before an LF that has none. */
  function Emit(m: Mode, c: byte): seq<byte> {
    match m
    case LineStart => if c == DOT then [DOT, DOT] else if c == LF then CRLF else [c]
    case InLine => if c == LF then CRLF else [c]
    case AfterCR => [c]
  }

  /** A CR is paired with the byte after it, whatever that is. */
  function NextMode(m: Mode, c: byte): Mode {
    if c == LF then LineStart else if c == CR && !m.AfterCR? then AfterCR else InLine
  }

  function ModeAfter(m: Mode, s: seq<byte>): Mode {
    if s == [] then m else NextMode(ModeAfter(m, s[..|s| - 1]), s[|s| - 1])
  }

  function Write(m: Mode, s: seq<byte>): seq<byte> {
    if s == [] then [] else Write(m, s[..|s| - 1]) + Emit(ModeAfter(m, s[..|s| - 1]), s[|s| - 1])
  }

  /** Closing ends an open line and adds the terminating line. */
  function Ending(m: Mode): seq<byte> {
    match m
    case LineStart => [DOT] + CRLF
    case AfterCR => [LF, DOT] + CRLF
    case InLine => CRLF + [DOT] + CRLF
  }

  /** The bytes on the wire; the header before the article ends with LF, so it starts a line. */
  function Wire(s: seq<byte>): seq<byte> { Write(LineStart, s) + Ending(ModeAfter(LineStart, s)) }

  // ----------------------------------------------------------- the receiver

  function Unstuff(line: seq<byte>): seq<byte> { if line != [] && line[0] == DOT then line[1..] else line }

  /** The lines before the terminating one, without their stuffing. */
  function Block(lines: seq<seq<byte>>): Option<seq<seq<byte>>> {
    if lines == [] then None
    else if lines[0] == [DOT] then Some([])
    else
      match Block(lines[1..])
      case None => None
      case Some(rest) => Some([Unstuff(lines[0])] + rest)
  }

  function Receive(wire: seq<byte>): Option<seq<seq<byte>>> {
    match Lines(wire)
    case None => None
    case Some(lines) => Block(lines)
  }

  // ------------------------------------------------------- line by line

  lemma {:induction false} ModeAppend(m: Mode, a: seq<byte>, b: seq<byte>)
    ensures ModeAfter(m, a + b) == ModeAfter(ModeAfter(m, a), b)
    decreases |b|
  {
    if b == [] {
      assert a + b == a;
    } else {
      assert (a + b)[..|a + b| - 1] == a + b[..|b| - 1];
      ModeAppend(m, a, b[..|b| - 1]);
    }
  }

  lemma {:induction false} WriteAppend(m: Mode, a: seq<byte>, b: seq<byte>)
    ensures Write(m, a + b) == Write(m, a) + Write(ModeAfter(m, a), b)
    decreases |b|
  {
    if b == [] {
      assert a + b == a;
    } else {
      var cut := b[..|b| - 1];
      assert (a + b)[..|a + b| - 1] == a + cut;
      ModeAppend(m, a, cut);
      WriteAppend(m, a, cut);
      Associative(Write(m, a), Write(ModeAfter(m, a), cut), Emit(ModeAfter(m, a + cut), b[|b| - 1]));
    }
  }

  lemma Associative(x: seq<byte>, y: seq<byte>, z: seq<byte>)
    ensures x + y + z == x + (y + z)
  {
  }

  function TrailingCRs(s: seq<byte>): nat {
    if s == [] || s[|s| - 1] != CR then 0 else 1 + TrailingCRs(s[..|s| - 1])
  }

  /** A line whose CRs at the end do not pair off among themselves. */
  predicate Odd(line: seq<byte>) { TrailingCRs(line) % 2 == 1 }

  lemma {:induction false} ModeOfLine(line: seq<byte>)
    requires LF !in line
    ensures ModeAfter(LineStart, line).AfterCR? <==> Odd(line)
    ensures ModeAfter(LineStart, line).LineStart? <==> line == []
  {
    if line != [] {
      assert line[|line| - 1] in line;
      ModeOfLine(line[..|line| - 1]);
    }
  }

  lemma {:induction false} WriteLine(line: seq<byte>)
    requires LF !in line
    ensures Write(LineStart, line) == (if line != [] && line[0] == DOT then [DOT] else []) + line
  {
    if |line| == 1 {
      assert line[..0] == [] && line == [line[0]];
      assert Write(LineStart, line) == Write(LineStart, []) + Emit(LineStart, line[0]);
    } else if line != [] {
      var cut, last := line[..|line| - 1], line[|line| - 1];
      assert last in line;
      ModeOfLine(cut);
      WriteLine(cut);
      Associative(if line[0] == DOT then [DOT] else [], cut, [last]);
      assert line == cut + [last];
    }
  }

  /** What arrives for a line: the same line, with one more CR at the end of an odd one. */
  function Padded(line: seq<byte>): seq<byte> { if Odd(line) then line + [CR] else line }

  function Sent(line: seq<byte>): seq<byte> {
    (if line != [] && line[0] == DOT then [DOT] else []) + Padded(line)
  }

  lemma WriteTwo(m: Mode, a: byte, b: byte)
    ensures ModeAfter(m, [a, b]) == NextMode(NextMode(m, a), b)
    ensures Write(m, [a, b]) == Emit(m, a) + Emit(NextMode(m, a), b)
  {
    assert [a, b][..1] == [a];
    assert [a][..0] == [];
    assert ModeAfter(m, [a]) == NextMode(ModeAfter(m, []), a);
    assert Write(m, [a]) == Write(m, []) + Emit(ModeAfter(m, []), a);
  }

  lemma WriteWholeLine(line: seq<byte>)
    requires LF !in line
    ensures ModeAfter(LineStart, line + CRLF).LineStart?
    ensures Write(LineStart, line + CRLF) == Sent(line) + CRLF
  {
    ModeOfLine(line);
    WriteLine(line);
    ModeAppend(LineStart, line, CRLF);
    WriteAppend(LineStart, line, CRLF);
    WriteTwo(ModeAfter(LineStart, line), CR, LF);
  }

  function SentLines(lines: seq<seq<byte>>): (r: seq<seq<byte>>)
    ensures |r| == |lines| && forall i :: 0 <= i < |r| ==> r[i] == Sent(lines[i])
  {
    seq(|lines|, i requires 0 <= i < |lines| => Sent(lines[i]))
  }

  function PaddedLines(lines: seq<seq<byte>>): (r: seq<seq<byte>>)
    ensures |r| == |lines| && forall i :: 0 <= i < |r| ==> r[i] == Padded(lines[i])
  {
    seq(|lines|, i requires 0 <= i < |lines| => Padded(lines[i]))
  }

  lemma {:induction false} WriteLines(lines: seq<seq<byte>>)
    requires forall i :: 0 <= i < |lines| ==> LF !in lines[i]
    ensures ModeAfter(LineStart, Unlines(lines)).LineStart?
    ensures Write(LineStart, Unlines(lines)) == Unlines(SentLines(lines))
  {
    if lines != [] {
      var rest := lines[1..];
      WriteLines(rest);
      WriteWholeLine(lines[0]);
      ModeAppend(LineStart, lines[0] + CRLF, Unlines(rest));
      WriteAppend(LineStart, lines[0] + CRLF, Unlines(rest));
      assert SentLines(lines)[1..] == SentLines(rest);
    }
  }

  lemma {:induction false} BlockOf(sent: seq<seq<byte>>, lines: seq<seq<byte>>)
    requires |sent| == |lines|
    requires forall i :: 0 <= i < |sent| ==> sent[i] != [DOT] && Unstuff(sent[i]) == lines[i]
    ensures Block(sent + [[DOT]]) == Some(lines)
  {
    var all := sent + [[DOT]];
    if sent != [] {
      BlockOf(sent[1..], lines[1..]);
      assert all[1..] == sent[1..] + [[DOT]];
      assert lines == [lines[0]] + lines[1..];
    }
  }

  lemma BlockOfSent(lines: seq<seq<byte>>)
    ensures Block(SentLines(lines) + [[DOT]]) == Some(PaddedLines(lines))
  {
    forall i | 0 <= i < |lines|
      ensures SentLines(lines)[i] != [DOT] && Unstuff(SentLines(lines)[i]) == PaddedLines(lines)[i] {
      UnstuffSent(lines[i]);
    }
    BlockOf(SentLines(lines), PaddedLines(lines));
  }

  lemma UnstuffSent(line: seq<byte>)
    ensures Sent(line) != [DOT] && Unstuff(Sent(line)) == Padded(line)
  {
    if line != [] && line[0] == DOT {
      assert Padded(line)[0] == DOT;
      assert Sent(line)[1..] == Padded(line);
    } else {
      assert line != [] ==> Padded(line)[0] == line[0];
      assert line == [] ==> Padded(line) == [];
      assert Sent(line) == Padded(line);
    }
  }

  lemma WireOfLines(lines: seq<seq<byte>>)
    requires forall i :: 0 <= i < |lines| ==> LF !in lines[i]
    ensures Wire(Unlines(lines)) == Unlines(SentLines(lines) + [[DOT]])
  {
    WriteLines(lines);
    UnlinesAppend(SentLines(lines), [[DOT]]);
    assert [[DOT]][1..] == [];
    assert Unlines([[DOT]]) == [DOT] + CRLF;
  }

  lemma SentClean(line: seq<byte>)
    requires LF !in line
    ensures !HasCrlf(Sent(line)) && !HasCrlf([DOT])
  {
  }

  /** Lines without LF arrive as they were sent, leading dots and all, but for the padding of odd ones. */
  lemma ReceiveLines(lines: seq<seq<byte>>)
    requires forall i :: 0 <= i < |lines| ==> LF !in lines[i]
    ensures Receive(Wire(Unlines(lines))) == Some(PaddedLines(lines))
  {
    WireOfLines(lines);
    forall i | 0 <= i < |lines| ensures !HasCrlf(SentLines(lines)[i]) { SentClean(lines[i]); }
    SentClean([]);
    LinesOfUnlines(SentLines(lines) + [[DOT]]);
    BlockOfSent(lines);
  }

  // ------------------------------------------------- no LF inside a line arrives

  /** Each LF follows a CR. */
  ghost predicate Paired(t: seq<byte>) { forall k :: 0 <= k < |t| && t[k] == LF ==> k > 0 && t[k - 1] == CR }

  lemma {:induction false} WritePaired(s: seq<byte>)
    ensures Paired(Write(LineStart, s))
    ensures ModeAfter(LineStart, s).AfterCR? ==>
              Write(LineStart, s) != [] && Write(LineStart, s)[|Write(LineStart, s)| - 1] == CR
  {
    if s != [] { WritePaired(s[..|s| - 1]); }
  }

  lemma WirePaired(s: seq<byte>)
    ensures Paired(Wire(s))
  {
    WritePaired(s);
  }

  lemma {:induction false} LinesOfPaired(t: seq<byte>)
    requires Paired(t) && Lines(t).Some?
    ensures forall i :: 0 <= i < |Lines(t).value| ==> LF !in Lines(t).value[i]
    decreases |t|
  {
    if t != [] {
      var n := LineEnd(t);
      var line, rest := t[..n], t[n + 2..];
      forall j | 0 <= j < n ensures t[j] != LF { assert j > 0 ==> !CrlfAt(t, j - 1); }
      assert Paired(rest) by {
        forall k | 0 <= k < |rest| && rest[k] == LF ensures k > 0 && rest[k - 1] == CR {
          assert t[n + 2 + k] == LF && t[n + 2 + k - 1] == CR;
          assert t[n + 1] == LF;
        }
      }
      LinesOfPaired(rest);
    }
  }

  lemma {:induction false} BlockKeeps(lines: seq<seq<byte>>)
    requires forall i :: 0 <= i < |lines| ==> LF !in lines[i]
    requires Block(lines).Some?
    ensures forall i :: 0 <= i < |Block(lines).value| ==> LF !in Block(lines).value[i]
  {
    if lines != [] && lines[0] != [DOT] {
      BlockKeeps(lines[1..]);
      assert forall b :: b in Unstuff(lines[0]) ==> b in lines[0];
    }
  }

  /** Whatever is sent, no line that arrives holds an LF. */
  lemma ReceivedLines(s: seq<byte>)
    requires Receive(Wire(s)).Some?
    ensures forall i :: 0 <= i < |Receive(Wire(s)).value| ==> LF !in Receive(Wire(s)).value[i]
  {
    WirePaired(s);
    LinesOfPaired(Wire(s));
    BlockKeeps(Lines(Wire(s)).value);
  }

  // ------------------------------------------------------------- stuffing

  predicate Dotted(line: seq<byte>) { line != [] && line[0] == DOT }

  /** Dot-stuffing of section 3.1.1 of RFC 3977. */
  function DotStuff(lines: seq<seq<byte>>): seq<seq<byte>> {
    if lines == [] then []
    else [if Dotted(lines[0]) then [DOT] + lines[0] else lines[0]] + DotStuff(lines[1..])
  }

  ghost predicate AnyDotted(lines: seq<seq<byte>>) { exists i :: 0 <= i < |lines| && Dotted(lines[i]) }

  lemma {:induction false} DotStuffIff(lines: seq<seq<byte>>)
    ensures DotStuff(lines) == lines <==> !AnyDotted(lines)
  {
    if lines != [] {
      var rest := lines[1..];
      DotStuffIff(rest);
      assert DotStuff(lines)[0] == lines[0] <==> !Dotted(lines[0]);
      assert DotStuff(lines)[1..] == DotStuff(rest);
      assert AnyDotted(lines) <==> Dotted(lines[0]) || AnyDotted(rest) by {
        if AnyDotted(rest) {
          var i :| 0 <= i < |rest| && Dotted(rest[i]);
          assert Dotted(lines[i + 1]);
        }
        if AnyDotted(lines) && !Dotted(lines[0]) {
          var i :| 0 <= i < |lines| && Dotted(lines[i]);
          assert Dotted(rest[i - 1]);
        }
      }
      if DotStuff(lines) == lines { assert DotStuff(rest) == rest; }
    }
  }

  /** A dot right after a CRLF pair. */
  predicate CrlfDotAt(s: seq<byte>, k: nat) { CrlfAt(s, k) && k + 2 < |s| && s[k + 2] == DOT }

  ghost predicate HasCrlfDot(s: seq<byte>) { exists k: nat :: CrlfDotAt(s, k) }

  predicate EndsLine(s: seq<byte>) { s != [] ==> |s| >= 2 && CrlfAt(s, |s| - 2) }

  /** A stream that ends in CRLF splits, and a line begins with a dot exactly at its start or after a CRLF pair. */
  lemma {:induction false} LinesDotted(s: seq<byte>)
    requires EndsLine(s)
    ensures Lines(s).Some?
    ensures AnyDotted(Lines(s).value) <==> Dotted(s) || HasCrlfDot(s)
    decreases |s|
  {
    if s != [] {
      var n := LineEnd(s);
      assert n <= |s| - 2;
      var line, rest := s[..n], s[n + 2..];
      assert EndsLine(rest) by {
        assert |s| - 2 != n + 1;
        if |rest| >= 2 {
          assert rest[|rest| - 2] == s[|s| - 2] && rest[|rest| - 1] == s[|s| - 1];
        }
      }
      LinesDotted(rest);
      HeadDotted(line, Lines(rest).value);
      CrlfDotSplit(s, n);
      assert Dotted(line) <==> Dotted(s) by { assert n == 0 ==> s[0] == CR; }
    }
  }

  lemma HeadDotted(line: seq<byte>, rest: seq<seq<byte>>)
    ensures AnyDotted([line] + rest) <==> Dotted(line) || AnyDotted(rest)
  {
    var all := [line] + rest;
    assert all[0] == line;
    if AnyDotted(rest) {
      var i :| 0 <= i < |rest| && Dotted(rest[i]);
      assert all[i + 1] == rest[i];
    }
  }

  lemma CrlfDotSplit(s: seq<byte>, n: nat)
    requires CrlfAt(s, n) && forall k :: 0 <= k < n ==> !CrlfAt(s, k)
    ensures HasCrlfDot(s) <==> Dotted(s[n + 2..]) || HasCrlfDot(s[n + 2..])
  {
    var rest := s[n + 2..];
    if HasCrlfDot(s) {
      var k: nat :| CrlfDotAt(s, k);
      assert k >= n && k != n + 1;
      if k > n { assert CrlfDotAt(rest, k - n - 2); }
    }
    if Dotted(rest) { assert CrlfDotAt(s, n); }
    if HasCrlfDot(rest) {
      var k: nat :| CrlfDotAt(rest, k);
      assert CrlfDotAt(s, n + 2 + k);
    }
  }
}
