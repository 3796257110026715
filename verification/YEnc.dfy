/**
 The yEnc article encoder of the upload engine, the decoder that specifies it
 (yEnc draft 1.3), and the proofs that relate the two.

 An article is a list of lines; on the wire every line is followed by CRLF.
 The encoder works byte by byte with a running line length, the decoder works
 line by line and knows nothing of that counter.
 */
module YEnc {
  import opened Wrappers

  newtype byte = x: int | 0 <= x < 256

  const CR: byte := 13
  const LF: byte := 10
  const DOT: byte := 46
  const ESC: byte := 61
  const LETTER_Y: byte := 121
  const LINE_LIMIT := 128
  const CRLF: seq<byte> := [CR, LF]

  // ---------------------------------------------------------------- lines

  /** The wire form of a list of lines. */
  function Unlines(lines: seq<seq<byte>>): seq<byte> {
    if lines == [] then [] else lines[0] + CRLF + Unlines(lines[1..])
  }

  lemma UnlinesAppend(a: seq<seq<byte>>, b: seq<seq<byte>>)
    ensures Unlines(a + b) == Unlines(a) + Unlines(b)
  {
    if a == [] {
      assert a + b == b;
    } else {
      assert (a + b)[1..] == a[1..] + b;
      UnlinesAppend(a[1..], b);
    }
  }

  /** A CRLF pair starts at position k. */
  predicate CrlfAt(s: seq<byte>, k: nat) {
    k + 1 < |s| && s[k] == CR && s[k + 1] == LF
  }

  predicate HasCrlf(s: seq<byte>) {
    exists k :: 0 <= k < |s| && CrlfAt(s, k)
  }

  /** The number of bytes before the first CRLF pair, or |s| when there is none. */
  function LineEnd(s: seq<byte>): (n: nat)
    ensures n <= |s|
    ensures n < |s| ==> CrlfAt(s, n)
    ensures forall k :: 0 <= k < n ==> !CrlfAt(s, k)
  {
    if s == [] then 0
    else if CrlfAt(s, 0) then 0
    else
      var n := LineEnd(s[1..]);
      assert forall k :: 0 <= k < n + 1 ==> !CrlfAt(s, k) by {
        forall k | 0 <= k < n + 1 ensures !CrlfAt(s, k) {
          if k > 0 { assert CrlfAt(s, k) == CrlfAt(s[1..], k - 1); }
        }
      }
      n + 1
  }

  /** Splits a byte stream at CRLF pairs; a stream that does not end in CRLF is refused. */
  function Lines(s: seq<byte>): Option<seq<seq<byte>>>
    decreases |s|
  {
    if s == [] then Some([])
    else
      var n := LineEnd(s);
      if n == |s| then None
      else
        match Lines(s[n + 2..])
        case None => None
        case Some(rest) => Some([s[..n]] + rest)
  }

  lemma LineEndOfLine(line: seq<byte>, rest: seq<byte>)
    requires !HasCrlf(line)
    ensures LineEnd(line + CRLF + rest) == |line|
  {
    var s := line + CRLF + rest;
    assert CrlfAt(s, |line|);
    forall k | 0 <= k < |line| ensures !CrlfAt(s, k) {
      assert !CrlfAt(line, k);
      assert s[k] == line[k];
      assert k + 1 < |line| ==> s[k + 1] == line[k + 1];
    }
  }

  lemma {:induction false} LinesOfUnlines(lines: seq<seq<byte>>)
    requires forall l :: l in lines ==> !HasCrlf(l)
    ensures Lines(Unlines(lines)) == Some(lines)
  {
    if lines != [] {
      var s := Unlines(lines);
      LineEndOfLine(lines[0], Unlines(lines[1..]));
      assert s[|lines[0]| + 2..] == Unlines(lines[1..]);
      assert s[..|lines[0]|] == lines[0];
      LinesOfUnlines(lines[1..]);
      assert lines == [lines[0]] + lines[1..];
    }
  }

  // -------------------------------------------------------------- encoder

  /** The shifted byte: wraps at 256 as Go's byte does. */
  function Shift(b: byte): byte { ((b as int + 42) % 256) as byte }

  predicate Critical(v: byte, column: nat) {
    v == 0 || v == LF || v == CR || v == ESC || (column == 0 && v == DOT)
  }

  function EncodeByte(b: byte, column: nat): (e: seq<byte>)
    ensures 1 <= |e| <= 2
  {
    var v := Shift(b);
    if Critical(v, column) then [ESC, ((v as int + 64) % 256) as byte] else [v]
  }

  /** The body lines produced for `data` when `cur` is already on the current line. */
  function EncodeLines(data: seq<byte>, cur: seq<byte>): seq<seq<byte>> {
    if data == [] then
      if cur == [] then [] else [cur]
    else
      var cur' := cur + EncodeByte(data[0], |cur|);
      if |cur'| >= LINE_LIMIT then [cur'] + EncodeLines(data[1..], [])
      else EncodeLines(data[1..], cur')
  }

  /** Everything yEncodeChunk is given, plus the checksum of the data. */
  datatype Part = Part(
    name: seq<byte>, number: nat, total: nat, size: nat,
    offset: nat, data: seq<byte>, crc: Crc)

  type Crc = x: int | 0 <= x < 0x1_0000_0000

  function Digit(d: nat): byte
    requires d < 10
  {
    (48 + d) as byte
  }

  function Decimal(n: nat): (r: seq<byte>)
    ensures |r| > 0
  {
    if n < 10 then [Digit(n)] else Decimal(n / 10) + [Digit(n % 10)]
  }

  function HexDigit(d: nat): byte
    requires d < 16
  {
    if d < 10 then Digit(d) else (87 + d) as byte
  }

  /** `width` lower-case hexadecimal digits, zero padded. */
  function Hex(n: nat, width: nat): (r: seq<byte>)
    ensures |r| == width
  {
    if width == 0 then [] else Hex(n / 16, width - 1) + [HexDigit(n % 16)]
  }

  const S_BEGIN: seq<byte> := [61, 121, 98, 101, 103, 105, 110, 32, 112, 97, 114, 116, 61]  // "=ybegin part="
  const S_TOTAL: seq<byte> := [32, 116, 111, 116, 97, 108, 61]  // " total="
  const S_SIZE: seq<byte> := [32, 108, 105, 110, 101, 61, 49, 50, 56, 32, 115, 105, 122, 101, 61]  // " line=128 size="
  const S_NAME: seq<byte> := [32, 110, 97, 109, 101, 61]  // " name="
  const S_PART: seq<byte> := [61, 121, 112, 97, 114, 116, 32, 98, 101, 103, 105, 110, 61]  // "=ypart begin="
  const S_PEND: seq<byte> := [32, 101, 110, 100, 61]  // " end="
  const S_END: seq<byte> := [61, 121, 101, 110, 100, 32, 115, 105, 122, 101, 61]  // "=yend size="
  const S_EPART: seq<byte> := [32, 112, 97, 114, 116, 61]  // " part="
  const S_CRC: seq<byte> := [32, 112, 99, 114, 99, 51, 50, 61]  // " pcrc32="

  function BeginLine(p: Part): seq<byte> {
    S_BEGIN + Decimal(p.number) + S_TOTAL + Decimal(p.total) + S_SIZE + Decimal(p.size) + S_NAME + p.name
  }

  function PartLine(p: Part): seq<byte> {
    S_PART + Decimal(p.offset + 1) + S_PEND + Decimal(p.offset + |p.data|)
  }

  function EndLine(p: Part): seq<byte> {
    S_END + Decimal(|p.data|) + S_EPART + Decimal(p.number) + S_CRC + Hex(p.crc, 8)
  }

  function BodyLines(data: seq<byte>): seq<seq<byte>> { EncodeLines(data, []) }

  function ArticleLines(p: Part): seq<seq<byte>> {
    [BeginLine(p), PartLine(p)] + BodyLines(p.data) + [EndLine(p)]
  }

  function Ascii(s: string): seq<byte> { seq(|s|, i requires 0 <= i < |s| => (s[i] as int % 256) as byte) }

  lemma BeginWords()
    ensures S_BEGIN == Ascii("=ybegin part=") && S_TOTAL == Ascii(" total=")
  {
  }

  lemma NameWords()
    ensures S_SIZE == Ascii(" line=128 size=") && S_NAME == Ascii(" name=")
  {
  }

  lemma PartWords()
    ensures S_PART == Ascii("=ypart begin=") && S_PEND == Ascii(" end=")
  {
  }

  lemma EndWords()
    ensures S_END == Ascii("=yend size=") && S_EPART == Ascii(" part=") && S_CRC == Ascii(" pcrc32=")
  {
  }

  /** The text of the three control lines. */
  lemma HeaderText(p: Part)
    ensures BeginLine(p) == Ascii("=ybegin part=") + Decimal(p.number) + Ascii(" total=") + Decimal(p.total)
                            + Ascii(" line=128 size=") + Decimal(p.size) + Ascii(" name=") + p.name
    ensures PartLine(p) == Ascii("=ypart begin=") + Decimal(p.offset + 1) + Ascii(" end=")
                           + Decimal(p.offset + |p.data|)
    ensures EndLine(p) == Ascii("=yend size=") + Decimal(|p.data|) + Ascii(" part=") + Decimal(p.number)
                          + Ascii(" pcrc32=") + Hex(p.crc, 8)
  {
    BeginWords();
    NameWords();
    PartWords();
    EndWords();
  }

  /** The bytes that are escaped: those shifted to NUL, LF, CR or '=', and to a dot at the start of a line. */
  lemma EscapedIff(b: byte, column: nat)
    ensures |EncodeByte(b, column)| == 2 <==> b in {214, 224, 227, 19} || (b == 4 && column == 0)
    ensures |EncodeByte(b, column)| == 2 ==> EncodeByte(b, column)[0] == 61
  {
  }

  /** Sample bytes: plain ones, each of the escaped ones, and a dot at and after the start of a line. */
  lemma KnownBytes()
    ensures EncodeByte(0, 1) == Ascii("*") && EncodeByte(255, 1) == Ascii(")")
    ensures EncodeByte(214, 1) == Ascii("=@") && EncodeByte(224, 1) == Ascii("=J")
    ensures EncodeByte(227, 1) == Ascii("=M") && EncodeByte(19, 1) == Ascii("=}")
    ensures EncodeByte(4, 0) == Ascii("=n") && EncodeByte(4, 1) == Ascii(".")
  {
  }

  /** One turn of the loop: `done` lines are closed, `cur` is the open one. */
  lemma EncodeStep(data: seq<byte>, i: nat, buf: seq<byte>, done: seq<seq<byte>>, cur: seq<byte>)
    requires i < |data|
    requires buf == Unlines(done) + cur
    requires done + EncodeLines(data[i..], cur) == BodyLines(data)
    ensures var e := EncodeByte(data[i], |cur|);
            var cur' := cur + e;
            if |cur'| >= LINE_LIMIT then
              && buf + e + CRLF == Unlines(done + [cur'])
              && done + [cur'] + EncodeLines(data[i + 1..], []) == BodyLines(data)
            else
              && buf + e == Unlines(done) + cur'
              && done + EncodeLines(data[i + 1..], cur') == BodyLines(data)
  {
    var e := EncodeByte(data[i], |cur|);
    var cur' := cur + e;
    assert data[i..][0] == data[i] && data[i..][1..] == data[i + 1..];
    CloseLine(done, cur');
    assert buf + e == Unlines(done) + cur';
    if |cur'| >= LINE_LIMIT {
      assert done + ([cur'] + EncodeLines(data[i + 1..], [])) == done + [cur'] + EncodeLines(data[i + 1..], []);
    }
  }

  /** The encoding loop of yEncodeChunk with its running `lineLen`. */
  method EncodeBody(data: seq<byte>) returns (buf: seq<byte>)
    ensures buf == Unlines(BodyLines(data))
  {
    buf := [];
    ghost var done: seq<seq<byte>> := [];
    ghost var cur: seq<byte> := [];
    var lineLen := 0;
    for i := 0 to |data|
      invariant lineLen == |cur|
      invariant buf == Unlines(done) + cur
      invariant done + EncodeLines(data[i..], cur) == BodyLines(data)
    {
      EncodeStep(data, i, buf, done, cur);
      var v := ((data[i] as int + 42) % 256) as byte;
      ghost var cur' := cur + EncodeByte(data[i], |cur|);
      if v == 0 || v == 10 || v == 13 || v == 61 || (lineLen == 0 && v == 46) {
        buf := buf + [61, ((v as int + 64) % 256) as byte];
        lineLen := lineLen + 2;
      } else {
        buf := buf + [v];
        lineLen := lineLen + 1;
      }
      if lineLen >= 128 {
        buf := buf + CRLF;
        lineLen := 0;
        done, cur := done + [cur'], [];
      } else {
        cur := cur';
      }
    }
    assert data[|data|..] == [];
    assert BodyLines(data) == if cur == [] then done else done + [cur];
    CloseLine(done, cur);
    if lineLen > 0 {
      buf := buf + CRLF;
    }
  }

  /** yEncodeChunk: headers, body, trailer. */
  method EncodeChunk(p: Part) returns (buf: seq<byte>)
    ensures buf == Unlines(ArticleLines(p))
  {
    buf := BeginLine(p) + CRLF;
    buf := buf + PartLine(p) + CRLF;
    var body := EncodeBody(p.data);
    buf := buf + body;
    buf := buf + EndLine(p) + CRLF;
    FrameOfArticle(BeginLine(p), PartLine(p), BodyLines(p.data), EndLine(p));
  }

  lemma FrameOfArticle(a: seq<byte>, b: seq<byte>, body: seq<seq<byte>>, c: seq<byte>)
    ensures Unlines([a, b] + body + [c]) == a + CRLF + b + CRLF + Unlines(body) + c + CRLF
  {
    CloseLine([], a);
    CloseLine([a], b);
    assert [] + [a] == [a] && [a] + [b] == [a, b];
    UnlinesAppend([a, b], body);
    CloseLine([a, b] + body, c);
  }

  lemma CloseLine(lines: seq<seq<byte>>, line: seq<byte>)
    ensures Unlines(lines + [line]) == Unlines(lines) + line + CRLF
  {
    UnlinesAppend(lines, [line]);
    assert [line][1..] == [];
  }

  // -------------------------------------------------------------- decoder

  function Unescape(c: byte): byte { ((c as int - 64) % 256) as byte }

  function Unshift(v: byte): byte { ((v as int - 42) % 256) as byte }

  /** Decodes from the left; `esc` says that the byte before was the escape byte. */
  function Decode(s: seq<byte>, esc: bool): seq<byte> {
    if s == [] then []
    else if esc then [Unshift(Unescape(s[0]))] + Decode(s[1..], false)
    else if s[0] == ESC then Decode(s[1..], true)
    else [Unshift(s[0])] + Decode(s[1..], false)
  }

  /** Whether an escape byte is still waiting for its partner after `s`. */
  predicate Pending(s: seq<byte>, esc: bool) {
    if s == [] then esc else Pending(s[1..], !esc && s[0] == ESC)
  }

  /** No escape byte is left dangling at the end of the line. */
  predicate Whole(line: seq<byte>) { !Pending(line, false) }

  function DecodeLine(line: seq<byte>): seq<byte> { Decode(line, false) }

  predicate AllWhole(lines: seq<seq<byte>>) {
    forall i :: 0 <= i < |lines| ==> Whole(lines[i])
  }

  function DecodeLines(lines: seq<seq<byte>>): seq<byte> {
    if lines == [] then [] else DecodeLine(lines[0]) + DecodeLines(lines[1..])
  }

  lemma {:induction false} DecodeAppend(a: seq<byte>, b: seq<byte>, esc: bool)
    ensures Decode(a + b, esc) == Decode(a, esc) + Decode(b, Pending(a, esc))
    ensures Pending(a + b, esc) == Pending(b, Pending(a, esc))
  {
    var s := a + b;
    if a == [] {
      assert s == b;
    } else {
      assert s[0] == a[0] && s[1..] == a[1..] + b;
      DecodeAppend(a[1..], b, !esc && a[0] == ESC);
    }
  }

  lemma DecodeByte(b: byte, column: nat)
    ensures Whole(EncodeByte(b, column)) && DecodeLine(EncodeByte(b, column)) == [b]
  {
    var e := EncodeByte(b, column);
    if |e| == 2 {
      DecodeTwo(e[1]);
      assert e == [ESC, e[1]];
    } else {
      DecodeOne(e[0]);
      assert e == [e[0]];
    }
  }

  lemma DecodeOne(v: byte)
    requires v != ESC
    ensures Whole([v]) && DecodeLine([v]) == [Unshift(v)]
  {
    var s := [v];
    assert s[1..] == [];
    assert Decode(s[1..], false) == [];
    assert Decode(s, false) == [Unshift(v)] + [];
  }

  lemma DecodeTwo(c: byte)
    ensures Whole([ESC, c]) && DecodeLine([ESC, c]) == [Unshift(Unescape(c))]
  {
    var s, t := [ESC, c], [c];
    assert s[1..] == t && t[1..] == [];
    assert Decode(t[1..], false) == [];
    assert Decode(t, true) == [Unshift(Unescape(c))] + [];
    assert Pending(t, true) == Pending(t[1..], false) == false;
  }

  /** Decoding the body lines gives the data back, whatever the data. */
  lemma {:induction false} DecodeOfEncode(data: seq<byte>, cur: seq<byte>)
    requires Whole(cur)
    ensures AllWhole(EncodeLines(data, cur))
    ensures DecodeLines(EncodeLines(data, cur)) == DecodeLine(cur) + data
    decreases |data|
  {
    if data == [] {
      if cur != [] { assert [cur][1..] == []; }
    } else {
      var e := EncodeByte(data[0], |cur|);
      var cur' := cur + e;
      DecodeByte(data[0], |cur|);
      DecodeAppend(cur, e, false);
      assert data == [data[0]] + data[1..];
      if |cur'| >= LINE_LIMIT {
        DecodeOfEncode(data[1..], []);
        assert EncodeLines(data, cur)[1..] == EncodeLines(data[1..], []);
      } else {
        DecodeOfEncode(data[1..], cur');
      }
    }
  }

  // ------------------------------------------------------- well-formedness

  /** What section 3.1.1 of RFC 3977 and the yEnc draft demand of one body line. */
  predicate GoodLine(line: seq<byte>) {
    && 1 <= |line| <= LINE_LIMIT + 1
    && line[0] != DOT
    && (forall i :: 0 <= i < |line| ==> line[i] != 0 && line[i] != CR && line[i] != LF)
    && (forall i :: 0 <= i < |line| && line[i] == ESC ==> i + 1 < |line| && line[i + 1] in {64, 74, 77, 110, 125})
  }

  /** The same, for a line still being filled. */
  predicate OpenLine(line: seq<byte>) {
    line != [] ==> GoodLine(line)
  }

  lemma ExtendLine(cur: seq<byte>, b: byte)
    requires OpenLine(cur) && |cur| < LINE_LIMIT
    ensures GoodLine(cur + EncodeByte(b, |cur|))
  {
    var e := EncodeByte(b, |cur|);
    var l := cur + e;
    var v := Shift(b);
    assert l[0] == if cur == [] then e[0] else cur[0];
    forall i | 0 <= i < |l|
      ensures l[i] != 0 && l[i] != CR && l[i] != LF
      ensures l[i] == ESC ==> i + 1 < |l| && l[i + 1] in {64, 74, 77, 110, 125}
    {
      if i < |cur| {
        assert l[i] == cur[i];
        if cur[i] == ESC { assert l[i + 1] == cur[i + 1]; }
      } else {
        assert l[i] == e[i - |cur|];
      }
    }
  }

  /** Body shape: all lines good, all but the last at the length limit. */
  lemma {:induction false} BodyShape(data: seq<byte>, cur: seq<byte>)
    requires OpenLine(cur) && |cur| < LINE_LIMIT
    ensures var ls := EncodeLines(data, cur);
            && (forall i :: 0 <= i < |ls| ==> GoodLine(ls[i]))
            && (forall i :: 0 <= i < |ls| - 1 ==> |ls[i]| == 128 || |ls[i]| == 129)
            && (ls == [] <==> data == [] && cur == [])
    decreases |data|
  {
    if data != [] {
      ExtendLine(cur, data[0]);
      var cur' := cur + EncodeByte(data[0], |cur|);
      if |cur'| >= LINE_LIMIT {
        BodyShape(data[1..], []);
      } else {
        BodyShape(data[1..], cur');
      }
    }
  }

  /** Escaped length: the bytes of all lines without their CRLF pairs. */
  function Escaped(lines: seq<seq<byte>>): nat {
    if lines == [] then 0 else |lines[0]| + Escaped(lines[1..])
  }

  lemma {:induction false} UnlinesLength(lines: seq<seq<byte>>)
    ensures |Unlines(lines)| == Escaped(lines) + 2 * |lines|
  {
    if lines != [] { UnlinesLength(lines[1..]); }
  }

  lemma {:induction false} EscapedBounds(data: seq<byte>, cur: seq<byte>)
    ensures |cur| + |data| <= Escaped(EncodeLines(data, cur)) <= |cur| + 2 * |data|
    decreases |data|
  {
    if data == [] {
      if cur != [] { assert [cur][1..] == []; }
    } else {
      var cur' := cur + EncodeByte(data[0], |cur|);
      if |cur'| >= LINE_LIMIT {
        EscapedBounds(data[1..], []);
        assert EncodeLines(data, cur)[1..] == EncodeLines(data[1..], []);
      } else {
        EscapedBounds(data[1..], cur');
      }
    }
  }

  lemma {:induction false} FullLines(lines: seq<seq<byte>>)
    requires forall i :: 0 <= i < |lines| ==> 1 <= |lines[i]|
    requires forall i :: 0 <= i < |lines| - 1 ==> |lines[i]| >= 128
    ensures lines != [] ==> 128 * (|lines| - 1) < Escaped(lines)
  {
    if |lines| > 1 { FullLines(lines[1..]); }
  }

  /** The size law: at most two bytes of line ending per started 128 escaped bytes. */
  lemma BodySize(data: seq<byte>)
    ensures var d := Escaped(BodyLines(data));
            && |data| <= d <= 2 * |data|
            && |Unlines(BodyLines(data))| <= d + 2 * ((d + 127) / 128)
  {
    var ls := BodyLines(data);
    BodyShape(data, []);
    EscapedBounds(data, []);
    FullLines(ls);
    UnlinesLength(ls);
  }

  /** "=y" cannot occur in a body line, so control lines are never confused with data. */
  predicate ControlLine(line: seq<byte>) {
    |line| >= 2 && line[0] == ESC && line[1] == LETTER_Y
  }

  lemma BodyHasNoMarker(data: seq<byte>, i: nat, k: nat)
    requires i < |BodyLines(data)| && k + 1 < |BodyLines(data)[i]|
    ensures !(BodyLines(data)[i][k] == ESC && BodyLines(data)[i][k + 1] == LETTER_Y)
  {
    BodyShape(data, []);
    assert GoodLine(BodyLines(data)[i]);
  }
}
