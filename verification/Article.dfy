/**
 The receiving side: parses a posted yEnc article back into its parts, and the
 exact condition under which the encoder's output survives the trip.
 */
module Article {
  import opened Wrappers
  import opened YEnc

  /** What a downloader learns from one article. */
  datatype Parsed = Parsed(
    name: seq<byte>, number: nat, total: nat, size: nat, begin: nat, end: nat,
    data: seq<byte>, endSize: nat, endNumber: nat, crc: nat)

  // -------------------------------------------------------- field parsers

  predicate IsDigit(c: byte) { 48 <= c <= 57 }

  predicate AllDigits(s: seq<byte>) { forall i :: 0 <= i < |s| ==> IsDigit(s[i]) }

  function DecimalValue(s: seq<byte>): nat
    requires AllDigits(s)
  {
    if s == [] then 0 else 10 * DecimalValue(s[..|s| - 1]) + (s[|s| - 1] as int - 48)
  }

  predicate IsHex(c: byte) { 48 <= c <= 57 || 97 <= c <= 102 }

  function HexValueOf(c: byte): nat
    requires IsHex(c)
  {
    if c <= 57 then c as int - 48 else c as int - 87
  }

  predicate AllHex(s: seq<byte>) { forall i :: 0 <= i < |s| ==> IsHex(s[i]) }

  function HexValue(s: seq<byte>): nat
    requires AllHex(s)
  {
    if s == [] then 0 else 16 * HexValue(s[..|s| - 1]) + HexValueOf(s[|s| - 1])
  }

  /** The length of the longest prefix of digits. */
  function DigitSpan(s: seq<byte>): (n: nat)
    ensures n <= |s| && AllDigits(s[..n]) && (n < |s| ==> !IsDigit(s[n]))
  {
    if s == [] || !IsDigit(s[0]) then 0
    else
      var n := DigitSpan(s[1..]);
      assert s[..n + 1] == [s[0]] + s[1..][..n];
      n + 1
  }

  /** Drops an expected literal. */
  function Skip(lit: seq<byte>, s: seq<byte>): Option<seq<byte>> {
    if |lit| <= |s| && s[..|lit|] == lit then Some(s[|lit|..]) else None
  }

  /** A literal followed by a decimal number; returns the number and the rest. */
  function Field(lit: seq<byte>, s: seq<byte>): Option<(nat, seq<byte>)> {
    match Skip(lit, s)
    case None => None
    case Some(t) =>
      var n := DigitSpan(t);
      if n == 0 then None else Some((DecimalValue(t[..n]), t[n..]))
  }

  lemma {:induction false} DecimalRoundTrip(n: nat)
    ensures AllDigits(Decimal(n)) && DecimalValue(Decimal(n)) == n
  {
    if n >= 10 {
      DecimalRoundTrip(n / 10);
      var s := Decimal(n);
      assert s[..|s| - 1] == Decimal(n / 10);
    } else {
      assert Decimal(n)[..0] == [];
    }
  }

  lemma {:induction false} HexRoundTrip(n: nat, width: nat)
    requires n < Pow16(width)
    ensures AllHex(Hex(n, width)) && HexValue(Hex(n, width)) == n
  {
    if width > 0 {
      HexRoundTrip(n / 16, width - 1);
      var s := Hex(n, width);
      assert s[..|s| - 1] == Hex(n / 16, width - 1);
    }
  }

  function Pow16(k: nat): nat { if k == 0 then 1 else 16 * Pow16(k - 1) }

  lemma {:induction false} DigitSpanAppend(a: seq<byte>, b: seq<byte>)
    requires AllDigits(a)
    requires b != [] ==> !IsDigit(b[0])
    ensures DigitSpan(a + b) == |a|
  {
    if a == [] {
      assert a + b == b;
    } else {
      assert (a + b)[1..] == a[1..] + b;
      DigitSpanAppend(a[1..], b);
    }
  }

  lemma SkipAppend(lit: seq<byte>, s: seq<byte>)
    ensures Skip(lit, lit + s) == Some(s)
  {
  }

  lemma FieldRoundTrip(lit: seq<byte>, n: nat, rest: seq<byte>)
    requires rest != [] ==> !IsDigit(rest[0])
    ensures Field(lit, lit + Decimal(n) + rest) == Some((n, rest))
  {
    var t := Decimal(n) + rest;
    assert lit + Decimal(n) + rest == lit + t;
    SkipAppend(lit, t);
    DecimalRoundTrip(n);
    DigitSpanAppend(Decimal(n), rest);
    assert t[..|Decimal(n)|] == Decimal(n) && t[|Decimal(n)|..] == rest;
  }

  // --------------------------------------------------------- line parsers

  /** `=ybegin`: part, total, size and the name, which runs to the end of the line. */
  function ParseBegin(line: seq<byte>): Option<(nat, nat, nat, seq<byte>)> {
    match Field(S_BEGIN, line)
    case None => None
    case Some((number, r1)) =>
      match Field(S_TOTAL, r1)
      case None => None
      case Some((total, r2)) =>
        match Field(S_SIZE, r2)
        case None => None
        case Some((size, r3)) =>
          match Skip(S_NAME, r3)
          case None => None
          case Some(name) => Some((number, total, size, name))
  }

  function ParsePart(line: seq<byte>): Option<(nat, nat)> {
    match Field(S_PART, line)
    case None => None
    case Some((begin, r1)) =>
      match Field(S_PEND, r1)
      case None => None
      case Some((end, r2)) => if r2 == [] then Some((begin, end)) else None
  }

  function ParseEnd(line: seq<byte>): Option<(nat, nat, nat)> {
    match Field(S_END, line)
    case None => None
    case Some((size, r1)) =>
      match Field(S_EPART, r1)
      case None => None
      case Some((number, r2)) =>
        match Skip(S_CRC, r2)
        case None => None
        case Some(h) => if |h| == 8 && AllHex(h) then Some((size, number, HexValue(h))) else None
  }

  lemma BeginRoundTrip(p: Part)
    ensures ParseBegin(BeginLine(p)) == Some((p.number, p.total, p.size, p.name))
  {
    var r3 := S_NAME + p.name;
    var r2 := S_SIZE + Decimal(p.size) + r3;
    var r1 := S_TOTAL + Decimal(p.total) + r2;
    assert BeginLine(p) == S_BEGIN + Decimal(p.number) + r1;
    FieldRoundTrip(S_BEGIN, p.number, r1);
    FieldRoundTrip(S_TOTAL, p.total, r2);
    FieldRoundTrip(S_SIZE, p.size, r3);
    SkipAppend(S_NAME, p.name);
  }

  lemma PartRoundTrip(p: Part)
    ensures ParsePart(PartLine(p)) == Some((p.offset + 1, p.offset + |p.data|))
  {
    var r1 := S_PEND + Decimal(p.offset + |p.data|) + [];
    assert PartLine(p) == S_PART + Decimal(p.offset + 1) + r1;
    FieldRoundTrip(S_PART, p.offset + 1, r1);
    FieldRoundTrip(S_PEND, p.offset + |p.data|, []);
  }

  lemma EndRoundTrip(p: Part)
    ensures ParseEnd(EndLine(p)) == Some((|p.data|, p.number, p.crc))
  {
    var r2 := S_CRC + Hex(p.crc, 8);
    var r1 := S_EPART + Decimal(p.number) + r2;
    assert EndLine(p) == S_END + Decimal(|p.data|) + r1;
    FieldRoundTrip(S_END, |p.data|, r1);
    FieldRoundTrip(S_EPART, p.number, r2);
    SkipAppend(S_CRC, Hex(p.crc, 8));
    assert Pow16(8) == 0x1_0000_0000;
    HexRoundTrip(p.crc, 8);
  }

  // ------------------------------------------------------- article parser

  /** The index of the first control line at or after `from`. */
  function NextControl(lines: seq<seq<byte>>, from: nat): (k: nat)
    requires from <= |lines|
    ensures from <= k <= |lines|
    ensures k < |lines| ==> ControlLine(lines[k])
    ensures forall i :: from <= i < k ==> !ControlLine(lines[i])
    decreases |lines| - from
  {
    if from == |lines| || ControlLine(lines[from]) then from else NextControl(lines, from + 1)
  }

  function Assemble(begin: Option<(nat, nat, nat, seq<byte>)>, part: Option<(nat, nat)>,
                    body: seq<seq<byte>>, end: Option<(nat, nat, nat)>): Option<Parsed>
  {
    if begin.None? || part.None? || end.None? || !AllWhole(body) then None
    else
      var (b, p, e) := (begin.value, part.value, end.value);
      Some(Parsed(b.3, b.0, b.1, b.2, p.0, p.1, DecodeLines(body), e.0, e.1, e.2))
  }

  /** Begin line, part line, data up to the next control line, which must be the last. */
  function ParseLines(lines: seq<seq<byte>>): Option<Parsed> {
    if |lines| < 3 then None
    else
      var k := NextControl(lines, 2);
      if k + 1 != |lines| then None
      else Assemble(ParseBegin(lines[0]), ParsePart(lines[1]), lines[2..k], ParseEnd(lines[k]))
  }

  function Parse(article: seq<byte>): Option<Parsed> {
    match Lines(article)
    case None => None
    case Some(lines) => ParseLines(lines)
  }

  /** What the receiver should learn from the article of part `p`. */
  function Meaning(p: Part): Parsed {
    Parsed(p.name, p.number, p.total, p.size, p.offset + 1, p.offset + |p.data|,
           p.data, |p.data|, p.number, p.crc)
  }

  lemma FrameIndices(a: seq<byte>, b: seq<byte>, body: seq<seq<byte>>, c: seq<byte>)
    ensures var lines := [a, b] + body + [c];
            && |lines| == |body| + 3 && lines[0] == a && lines[1] == b && lines[|body| + 2] == c
            && lines[2..|body| + 2] == body
            && (forall i :: 2 <= i < |body| + 2 ==> lines[i] == body[i - 2])
  {
  }

  lemma FrameOf(a: seq<byte>, b: seq<byte>, data: seq<byte>, c: seq<byte>)
    requires ControlLine(c)
    ensures ParseLines([a, b] + BodyLines(data) + [c]) ==
            Assemble(ParseBegin(a), ParsePart(b), BodyLines(data), ParseEnd(c))
  {
    var body := BodyLines(data);
    var lines := [a, b] + body + [c];
    FrameIndices(a, b, body, c);
    forall i | 2 <= i < |body| + 2 ensures !ControlLine(lines[i]) {
      if |body[i - 2]| >= 2 { BodyHasNoMarker(data, i - 2, 0); }
    }
  }

  lemma AssembleIs(begin: Option<(nat, nat, nat, seq<byte>)>, part: Option<(nat, nat)>,
                   end: Option<(nat, nat, nat)>, p: Part)
    requires begin == Some((p.number, p.total, p.size, p.name))
    requires part == Some((p.offset + 1, p.offset + |p.data|))
    requires end == Some((|p.data|, p.number, p.crc))
    ensures Assemble(begin, part, BodyLines(p.data), end) == Some(Meaning(p))
  {
    BodyDecodes(p.data);
  }

  lemma AssembleArticle(p: Part)
    ensures Assemble(ParseBegin(BeginLine(p)), ParsePart(PartLine(p)), BodyLines(p.data), ParseEnd(EndLine(p)))
         == Some(Meaning(p))
  {
    BeginRoundTrip(p);
    PartRoundTrip(p);
    EndRoundTrip(p);
    AssembleIs(ParseBegin(BeginLine(p)), ParsePart(PartLine(p)), ParseEnd(EndLine(p)), p);
  }

  /** Line level: framing is unambiguous and every field comes back, for every part. */
  lemma ParseLinesOfArticle(p: Part)
    ensures ParseLines(ArticleLines(p)) == Some(Meaning(p))
  {
    FrameOf(BeginLine(p), PartLine(p), p.data, EndLine(p));
    AssembleArticle(p);
  }

  lemma BodyDecodes(data: seq<byte>)
    ensures AllWhole(BodyLines(data)) && DecodeLines(BodyLines(data)) == data
  {
    DecodeOfEncode(data, []);
    assert [] + data == data;
  }

  // ------------------------------------------------------------ round trip

  predicate Plain(s: seq<byte>) { CR !in s && LF !in s }

  lemma {:induction false} DecimalPlain(n: nat)
    ensures Plain(Decimal(n))
  {
    if n >= 10 { DecimalPlain(n / 10); }
  }

  lemma {:induction false} HexPlain(n: nat, width: nat)
    ensures Plain(Hex(n, width))
  {
    if width > 0 { HexPlain(n / 16, width - 1); }
  }

  /** The begin line up to and including "name=". */
  function BeginPrefix(p: Part): seq<byte> {
    S_BEGIN + Decimal(p.number) + S_TOTAL + Decimal(p.total) + S_SIZE + Decimal(p.size) + S_NAME
  }

  lemma BeginPrefixPlain(p: Part)
    ensures Plain(BeginPrefix(p))
  {
    DecimalPlain(p.number);
    DecimalPlain(p.total);
    DecimalPlain(p.size);
  }

  lemma OtherLinesPlain(p: Part)
    ensures Plain(PartLine(p)) && Plain(EndLine(p))
  {
    DecimalPlain(p.offset + 1);
    DecimalPlain(p.offset + |p.data|);
    DecimalPlain(|p.data|);
    DecimalPlain(p.number);
    HexPlain(p.crc, 8);
  }

  /** A CRLF pair of prefix + name lies inside the name when the prefix has no CR. */
  lemma CrlfInName(prefix: seq<byte>, name: seq<byte>)
    requires Plain(prefix)
    ensures HasCrlf(prefix + name) <==> HasCrlf(name)
  {
    var s := prefix + name;
    if HasCrlf(s) {
      var k :| 0 <= k < |s| && CrlfAt(s, k);
      assert CrlfAt(name, k - |prefix|);
    }
    if HasCrlf(name) {
      var k :| 0 <= k < |name| && CrlfAt(name, k);
      assert CrlfAt(s, k + |prefix|);
    }
  }

  lemma ArticleLinesClean(p: Part)
    requires !HasCrlf(p.name)
    ensures forall l :: l in ArticleLines(p) ==> !HasCrlf(l)
  {
    var body := BodyLines(p.data);
    BeginPrefixPlain(p);
    OtherLinesPlain(p);
    CrlfInName(BeginPrefix(p), p.name);
    assert BeginLine(p) == BeginPrefix(p) + p.name;
    BodyShape(p.data, []);
    forall i | 0 <= i < |body| ensures !HasCrlf(body[i]) {
      assert GoodLine(body[i]);
    }
  }

  /** A name with an embedded CRLF is cut at its first line ending. */
  lemma BrokenName(p: Part)
    requires HasCrlf(p.name)
    ensures Parse(Unlines(ArticleLines(p))) != Some(Meaning(p))
  {
    var lines := ArticleLines(p);
    var s := Unlines(lines);
    BeginPrefixPlain(p);
    CrlfInName(BeginPrefix(p), p.name);
    assert BeginLine(p) == BeginPrefix(p) + p.name;
    var k :| 0 <= k < |BeginLine(p)| && CrlfAt(BeginLine(p), k);
    assert lines[0] == BeginLine(p) && s == BeginLine(p) + CRLF + Unlines(lines[1..]);
    assert CrlfAt(s, k);
    var n := LineEnd(s);
    assert n <= k;
    var prefix := BeginPrefix(p);
    assert s == prefix + s[|prefix|..];
    var cut := p.(name := p.name[..n - |prefix|]);
    assert s[..n] == BeginLine(cut);
    BeginRoundTrip(cut);
    assert |cut.name| < |p.name|;
  }

  /** The round trip holds exactly for the names without an embedded line ending. */
  lemma ArticleRoundTrip(p: Part)
    ensures Parse(Unlines(ArticleLines(p))) == Some(Meaning(p)) <==> !HasCrlf(p.name)
  {
    if HasCrlf(p.name) {
      BrokenName(p);
    } else {
      ArticleLinesClean(p);
      LinesOfUnlines(ArticleLines(p));
      ParseLinesOfArticle(p);
    }
  }
}
