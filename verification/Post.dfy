/**
 Posting an article and reading it back: the encoder's bytes go through the dot writer, and
 the reader parses the lines of the data block. Everything hinges on the file name, the one
 part of an article that the encoder does not control.
 */
module Post {
  import opened Wrappers
  import opened YEnc
  import opened Article
  import opened DotTransfer

  function Encoded(p: Part): seq<byte> { Unlines(ArticleLines(p)) }

  /** What the reader of the posted article learns. */
  function ReadBack(wire: seq<byte>): Option<Parsed> {
    match Receive(wire)
    case None => None
    case Some(lines) => ParseLines(lines)
  }

  /** Names that survive: no LF, and CRs at the end only in pairs. */
  predicate Postable(name: seq<byte>) { LF !in name && !Odd(name) }

  lemma PlainNames(name: seq<byte>)
    requires CR !in name && LF !in name
    ensures Postable(name)
  {
    assert name != [] ==> name[|name| - 1] in name;
  }

  // ---------------------------------------------------- names without LF

  /** All lines but the first: no CR, no LF, no leading dot, none empty. */
  lemma OtherLines(p: Part)
    ensures forall i :: 1 <= i < |ArticleLines(p)| ==>
              Plain(ArticleLines(p)[i]) && ArticleLines(p)[i] != [] && !Dotted(ArticleLines(p)[i])
  {
    OtherLinesPlain(p);
    BodyShape(p.data, []);
    var lines, body := ArticleLines(p), BodyLines(p.data);
    forall i | 1 <= i < |lines| ensures Plain(lines[i]) && lines[i] != [] && !Dotted(lines[i]) {
      if 2 <= i < |body| + 2 {
        assert lines[i] == body[i - 2] && GoodLine(body[i - 2]);
      } else {
        assert lines[i] == if i == 1 then PartLine(p) else EndLine(p);
      }
    }
  }

  lemma BeginIs(p: Part)
    ensures ArticleLines(p)[0] == BeginLine(p) == BeginPrefix(p) + p.name
    ensures BeginPrefix(p) != [] && BeginPrefix(p)[0] == ESC
  {
  }

  lemma {:induction false} TrailingCRsAppend(a: seq<byte>, b: seq<byte>)
    requires a != [] && CR !in a
    ensures TrailingCRs(a + b) == TrailingCRs(b)
    decreases |b|
  {
    if b == [] {
      assert a + b == a && a[|a| - 1] in a;
    } else {
      assert (a + b)[..|a + b| - 1] == a + b[..|b| - 1];
      TrailingCRsAppend(a, b[..|b| - 1]);
    }
  }

  lemma PaddedTail(lines: seq<seq<byte>>)
    requires lines != [] && forall i :: 1 <= i < |lines| ==> Plain(lines[i])
    ensures PaddedLines(lines) == [Padded(lines[0])] + lines[1..]
  {
  }

  /** The name occurs in the first line only. */
  lemma Renamed(p: Part, name: seq<byte>)
    ensures ArticleLines(p.(name := name)) == [BeginPrefix(p) + name] + ArticleLines(p)[1..]
  {
    var q := p.(name := name);
    assert BeginPrefix(q) == BeginPrefix(p);
    BeginIs(q);
    assert ArticleLines(q)[1..] == ArticleLines(p)[1..];
  }

  /** Without LF the article arrives as the article of the padded name. */
  lemma ReceiveArticle(p: Part)
    requires LF !in p.name
    ensures Receive(Wire(Encoded(p))) == Some(ArticleLines(p.(name := Padded(p.name))))
  {
    var lines := ArticleLines(p);
    BeginIs(p);
    BeginPrefixPlain(p);
    OtherLines(p);
    ReceiveLines(lines);
    PaddedTail(lines);
    TrailingCRsAppend(BeginPrefix(p), p.name);
    assert Padded(BeginPrefix(p) + p.name) == BeginPrefix(p) + Padded(p.name);
    Renamed(p, Padded(p.name));
  }

  // ------------------------------------------------------- names with LF

  lemma SkipWithin(lit: seq<byte>, s: seq<byte>)
    requires LF !in s && Skip(lit, s).Some?
    ensures LF !in Skip(lit, s).value
  {
  }

  lemma FieldWithin(lit: seq<byte>, s: seq<byte>)
    requires LF !in s && Field(lit, s).Some?
    ensures LF !in Field(lit, s).value.1
  {
    SkipWithin(lit, s);
  }

  /** The name of a begin line is part of that line. */
  lemma NameWithin(line: seq<byte>)
    requires LF !in line && ParseBegin(line).Some?
    ensures LF !in ParseBegin(line).value.3
  {
    FieldWithin(S_BEGIN, line);
    var r1 := Field(S_BEGIN, line).value.1;
    FieldWithin(S_TOTAL, r1);
    var r2 := Field(S_TOTAL, r1).value.1;
    FieldWithin(S_SIZE, r2);
    SkipWithin(S_NAME, Field(S_SIZE, r2).value.1);
  }

  /** Whatever was posted, the name that is read back holds no LF. */
  lemma ReadNames(s: seq<byte>)
    requires ReadBack(Wire(s)).Some?
    ensures LF !in ReadBack(Wire(s)).value.name
  {
    ReceivedLines(s);
    NameWithin(Receive(Wire(s)).value[0]);
  }

  // ------------------------------------------------------------- theorems

  /** Posting and reading back recovers every field and the data exactly for the postable names. */
  lemma PostRoundTrip(p: Part)
    ensures ReadBack(Wire(Encoded(p))) == Some(Meaning(p)) <==> Postable(p.name)
  {
    if LF in p.name {
      if ReadBack(Wire(Encoded(p))).Some? { ReadNames(Encoded(p)); }
    } else {
      ReceiveArticle(p);
      ParseLinesOfArticle(p.(name := Padded(p.name)));
    }
  }

  /** The bytes of an article: the name sits between a clean prefix and clean lines. */
  lemma CrlfDotInName(prefix: seq<byte>, name: seq<byte>, tail: seq<byte>)
    requires CR !in prefix && !Dotted(tail) && !HasCrlfDot(tail)
    ensures HasCrlfDot(prefix + name + CRLF + tail) <==> HasCrlfDot(name)
  {
    var s, a, b := prefix + name + CRLF + tail, |prefix|, |prefix| + |name|;
    assert forall k :: 0 <= k < a ==> s[k] == prefix[k] && prefix[k] in prefix;
    assert forall k :: a <= k < b ==> s[k] == name[k - a];
    assert s[b] == CR && s[b + 1] == LF;
    assert forall k :: b + 2 <= k < |s| ==> s[k] == tail[k - b - 2];
    if HasCrlfDot(s) {
      var k: nat :| CrlfDotAt(s, k);
      assert a <= k;
      assert k >= b + 2 ==> CrlfDotAt(tail, k - b - 2);
      assert k + 2 < b;
      assert CrlfDotAt(name, k - a);
    }
    if HasCrlfDot(name) {
      var k: nat :| CrlfDotAt(name, k);
      assert CrlfDotAt(s, a + k);
    }
  }

  lemma PlainLines(lines: seq<seq<byte>>)
    requires forall i :: 0 <= i < |lines| ==> Plain(lines[i])
    ensures Lines(Unlines(lines)) == Some(lines)
  {
    forall l | l in lines ensures !HasCrlf(l) { }
    LinesOfUnlines(lines);
  }

  lemma TailClean(lines: seq<seq<byte>>)
    requires forall i :: 0 <= i < |lines| ==> Plain(lines[i]) && !Dotted(lines[i])
    ensures !Dotted(Unlines(lines)) && !HasCrlfDot(Unlines(lines))
  {
    PlainLines(lines);
    EndsInCrlf(lines);
    NoDots(Unlines(lines), lines);
  }

  lemma NoDots(t: seq<byte>, lines: seq<seq<byte>>)
    requires EndsLine(t) && Lines(t) == Some(lines)
    requires forall i :: 0 <= i < |lines| ==> !Dotted(lines[i])
    ensures !Dotted(t) && !HasCrlfDot(t)
  {
    LinesDotted(t);
  }

  lemma TwoLines(a: seq<byte>, b: seq<byte>, rest: seq<seq<byte>>)
    ensures Unlines([a, b] + rest) == a + CRLF + (b + CRLF + Unlines(rest))
  {
    assert ([a, b] + rest)[1..] == [b] + rest && ([b] + rest)[1..] == rest;
  }

  lemma {:induction false} EndsInCrlf(lines: seq<seq<byte>>)
    ensures EndsLine(Unlines(lines))
  {
    if lines != [] { EndsInCrlf(lines[1..]); }
  }

  /** On the wire lines of the encoded bytes stuffing changes nothing exactly when the name has no dot after a CRLF. */
  lemma WireNeedsNoStuffing(p: Part)
    ensures Lines(Encoded(p)).Some?
    ensures var lines := Lines(Encoded(p)).value; DotStuff(lines) == lines <==> !HasCrlfDot(p.name)
    ensures !HasCrlfDot(p.name) ==> [DOT] !in Lines(Encoded(p)).value
  {
    var s, rest := Encoded(p), ArticleLines(p)[1..];
    BeginIs(p);
    BeginPrefixPlain(p);
    OtherLines(p);
    TailClean(rest);
    assert s == BeginPrefix(p) + p.name + CRLF + Unlines(rest);
    CrlfDotInName(BeginPrefix(p), p.name, Unlines(rest));
    EndsInCrlf(ArticleLines(p));
    LinesDotted(s);
    DotStuffIff(Lines(s).value);
    if [DOT] in Lines(s).value {
      var i :| 0 <= i < |Lines(s).value| && Lines(s).value[i] == [DOT];
      assert Dotted(Lines(s).value[i]);
    }
  }

  /** The name CR LF '.' puts the terminating line into the encoder's bytes. */
  lemma NameWithTerminator(p: Part)
    requires p.name == CRLF + [DOT]
    ensures Lines(Encoded(p)).Some? && [DOT] in Lines(Encoded(p)).value
    ensures !Postable(p.name)
  {
    var rest := ArticleLines(p)[1..];
    BeginIs(p);
    BeginPrefixPlain(p);
    OtherLines(p);
    DotCut(BeginPrefix(p), rest, Encoded(p));
    assert ([BeginPrefix(p), [DOT]] + rest)[1] == [DOT];
    assert p.name[1] == LF;
  }

  lemma DotCut(prefix: seq<byte>, rest: seq<seq<byte>>, s: seq<byte>)
    requires Plain(prefix) && forall i :: 0 <= i < |rest| ==> Plain(rest[i])
    requires s == prefix + (CRLF + [DOT]) + CRLF + Unlines(rest)
    ensures Lines(s) == Some([prefix, [DOT]] + rest)
  {
    TwoLines(prefix, [DOT], rest);
    FiveParts(prefix, CRLF, [DOT], CRLF, Unlines(rest));
    PlainLines([prefix, [DOT]] + rest);
  }

  lemma FiveParts(a: seq<byte>, b: seq<byte>, c: seq<byte>, d: seq<byte>, e: seq<byte>)
    ensures a + (b + c) + d + e == a + b + (c + d + e)
  {
  }
}
