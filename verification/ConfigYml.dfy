/**
 config.yml: the line-oriented printer and parser of the layered configuration, and the
 exact condition under which a written map is read back unchanged.
 */
module ConfigYml {
  import opened Wrappers
  import opened Text

  // ------------------------------------------------------------- printing

  predicate IsQuote(c: char) { c == '"' || c == '\'' }

  /** Characters that make WriteYml quote a value. */
  predicate IsSpecial(c: char) { c == ':' || c == '#' || c == '\n' || IsQuote(c) }

  predicate Has(s: string, p: char -> bool) { exists i :: 0 <= i < |s| && p(s[i]) }

  function HexDigits(n: nat, width: nat): (r: string)
    ensures |r| == width
    ensures forall i :: 0 <= i < |r| ==> '0' <= r[i] <= '9' || 'a' <= r[i] <= 'f'
  {
    if width == 0 then ""
    else
      var d := n % 16;
      HexDigits(n / 16, width - 1) + [if d < 10 then ('0' as int + d) as char else ('a' as int + d - 10) as char]
  }

  /** Printable as the %q verb has it; `wide` decides beyond ASCII. */
  predicate Printable(c: char, wide: char -> bool) {
    if c < '\U{80}' then ' ' <= c <= '~' else wide(c)
  }

  /** Written as itself inside quotes. */
  predicate Verbatim(c: char, wide: char -> bool) {
    Printable(c, wide) && c != '"' && c != '\\'
  }

  /** One character of a %q string. */
  function EscapeChar(c: char, wide: char -> bool): (r: string)
    ensures |r| >= 1
    ensures Verbatim(c, wide) ==> r == [c]
    ensures !Verbatim(c, wide) ==> |r| >= 2 && r[0] == '\\'
    ensures !IsQuote(c) ==> !IsQuote(r[0]) && !IsQuote(r[|r| - 1])
    ensures forall i :: 0 <= i < |r| ==> r[i] != '\n'
  {
    if c == '"' || c == '\\' then ['\\', c]
    else if Printable(c, wide) then [c]
    else if c == '\U{7}' then "\\a"
    else if c == '\U{8}' then "\\b"
    else if c == '\U{c}' then "\\f"
    else if c == '\n' then "\\n"
    else if c == '\r' then "\\r"
    else if c == '\t' then "\\t"
    else if c == '\U{b}' then "\\v"
    else if c < '\U{80}' then "\\x" + HexDigits(c as int, 2)
    else if c < '\U{10000}' then "\\u" + HexDigits(c as int, 4)
    else "\\U" + HexDigits(c as int, 8)
  }

  function Escape(v: string, wide: char -> bool): string {
    if v == "" then "" else Escape(v[..|v| - 1], wide) + EscapeChar(v[|v| - 1], wide)
  }

  function PrintValue(v: string, wide: char -> bool): string {
    if Has(v, IsSpecial) then "\"" + Escape(v, wide) + "\"" else v
  }

  function PrintLine(k: string, v: string, wide: char -> bool): string {
    k + ": " + PrintValue(v, wide)
  }

  /** Quoted are the values with a colon, a hash, a quote of either kind or a newline, and no others. */
  lemma QuotedIff(v: string, wide: char -> bool)
    ensures if exists i :: 0 <= i < |v| && v[i] in {':', '#', '"', '\'', '\n'}
            then PrintValue(v, wide) == "\"" + Escape(v, wide) + "\""
            else PrintValue(v, wide) == v
    ensures forall k :: PrintLine(k, v, wide) == k + ": " + PrintValue(v, wide)
  {
    assert forall i :: 0 <= i < |v| ==> (IsSpecial(v[i]) <==> v[i] in {':', '#', '"', '\'', '\n'});
  }

  /** Samples of the escapes that Go's %q verb writes. */
  lemma EscapeSamples(wide: char -> bool)
    ensures EscapeChar('a', wide) == "a" && EscapeChar(' ', wide) == " " && EscapeChar('~', wide) == "~"
    ensures EscapeChar('"', wide) == "\\\"" && EscapeChar('\\', wide) == "\\\\" && EscapeChar('\'', wide) == "'"
    ensures EscapeChar('\n', wide) == "\\n" && EscapeChar('\t', wide) == "\\t" && EscapeChar('\r', wide) == "\\r"
    ensures EscapeChar('\U{7f}', wide) == "\\x" + HexDigits(0x7f, 2)
  {
  }

  lemma HexStep(n: nat, width: nat, head: string, d: char)
    requires width >= 1 && HexDigits(n / 16, width - 1) == head
    requires d == if n % 16 < 10 then ('0' as int + n % 16) as char else ('a' as int + n % 16 - 10) as char
    ensures HexDigits(n, width) == head + [d]
  {
  }

  lemma HexSample()
    ensures HexDigits(0x7f, 2) == "7f"
  {
    HexStep(7, 1, "", '7');
    HexStep(0x7f, 2, "7", 'f');
  }

  // -------------------------------------------------------------- parsing

  /** The index of the first ':' from `i` on, or |s|. */
  function Colon(s: string, i: nat): (n: nat)
    requires i <= |s|
    ensures i <= n <= |s| && (n < |s| ==> s[n] == ':')
    ensures forall k :: i <= k < n ==> s[k] != ':'
    decreases |s| - i
  {
    if i == |s| || s[i] == ':' then i else Colon(s, i + 1)
  }

  function LoadValue(p: string): string { TrimBy(TrimSpace(p), IsQuote) }

  /** One line of the file: a binding, or nothing for blank lines, comments and the rest. */
  function ParseLine(line: string): Option<(string, string)> {
    var t := TrimSpace(line);
    if t == "" || t[0] == '#' then None
    else
      var i := Colon(t, 0);
      if i == |t| then None
      else Some((ToLower(TrimSpace(t[..i])), LoadValue(t[i + 1..])))
  }

  // --------------------------------------------------- one line, both ways

  /** Keys that survive the file: lower case, trimmed, no ':' or newline, no leading '#'. */
  predicate KeyOk(k: string) {
    && Trimmed(k) && IsLower(k)
    && (forall i :: 0 <= i < |k| ==> k[i] != ':' && k[i] != '\n')
    && (k != "" ==> k[0] != '#')
  }

  lemma ColonAfterKey(k: string, rest: string)
    requires KeyOk(k)
    ensures Colon(k + ":" + rest, 0) == |k|
  {
    var s := k + ":" + rest;
    assert forall i :: 0 <= i < |k| ==> s[i] == k[i];
    assert s[|k|] == ':';
  }

  lemma SplitAtColon(k: string, rest: string)
    ensures var t := k + ":" + rest; t[..|k|] == k && t[|k| + 1..] == rest
  {
  }

  /** A trimmed line that starts with a good key and a colon. */
  lemma ParseBinding(line: string, k: string, rest: string)
    requires KeyOk(k) && TrimSpace(line) == k + ":" + rest
    ensures ParseLine(line) == Some((k, LoadValue(rest)))
  {
    KeyStart(k, rest);
    ColonAfterKey(k, rest);
    SplitAtColon(k, rest);
    TrimSpaceTrims(k);
    ToLowerLowers(k);
  }

  lemma LoadOfPadded(a: string, m: string, b: string)
    requires AllOf(a, IsSpace) && AllOf(b, IsSpace) && Trimmed(m)
    ensures LoadValue(a + m + b) == TrimBy(m, IsQuote)
  {
    TrimMiddle(a, m, b, IsSpace);
  }

  lemma KeyStart(k: string, rest: string)
    requires KeyOk(k)
    ensures var t := k + ":" + rest; !IsSpace(t[0]) && t[0] != '#'
  {
    var t := k + ":" + rest;
    assert t[0] == if k == "" then ':' else k[0];
  }

  lemma BlankParts(k: string, p: string)
    requires AllOf(p, IsSpace)
    ensures k + ": " + p == "" + (k + ":" + "") + (" " + p) && AllOf(" " + p, IsSpace)
    ensures (k + ":" + "")[|k|] == ':' && |k + ":" + ""| == |k| + 1
  {
  }

  /** Trimming a printed line whose value is blank. */
  lemma TrimBlankLine(k: string, p: string)
    requires KeyOk(k) && AllOf(p, IsSpace)
    ensures TrimSpace(k + ": " + p) == k + ":" + ""
  {
    KeyStart(k, "");
    BlankParts(k, p);
    TrimMiddle("", k + ":" + "", " " + p, IsSpace);
  }

  lemma PrintedParts(k: string, a: string, m: string, b: string)
    ensures k + ": " + (a + m + b) == "" + (k + ":" + (" " + a + m)) + b
  {
  }

  /** Trimming a printed line whose value has the trimmed middle m. */
  lemma TrimValueLine(k: string, a: string, m: string, b: string)
    requires KeyOk(k) && m != "" && Trimmed(m) && AllOf(b, IsSpace)
    ensures TrimSpace(k + ": " + (a + m + b)) == k + ":" + (" " + a + m)
  {
    var rest := " " + a + m;
    var t := k + ":" + rest;
    KeyStart(k, rest);
    assert t[|t| - 1] == rest[|rest| - 1] == m[|m| - 1];
    TrimMiddle("", t, b, IsSpace);
    PrintedParts(k, a, m, b);
  }

  lemma ParseBlank(k: string, p: string)
    requires KeyOk(k) && AllOf(p, IsSpace)
    ensures ParseLine(k + ": " + p) == Some((k, LoadValue(p)))
  {
    TrimBlankLine(k, p);
    ParseBinding(k + ": " + p, k, "");
    LoadOfPadded("", "", "");
    LoadOfPadded(p, "", "");
    assert p + "" + "" == p && "" + "" + "" == "";
  }

  lemma ParseValue(k: string, a: string, m: string, b: string)
    requires KeyOk(k) && m != "" && Trimmed(m) && AllOf(a, IsSpace) && AllOf(b, IsSpace)
    ensures ParseLine(k + ": " + (a + m + b)) == Some((k, LoadValue(a + m + b)))
  {
    TrimValueLine(k, a, m, b);
    ParseBinding(k + ": " + (a + m + b), k, " " + a + m);
    SameLoad(a, m, b);
  }

  lemma SameLoad(a: string, m: string, b: string)
    requires Trimmed(m) && AllOf(a, IsSpace) && AllOf(b, IsSpace)
    ensures LoadValue(" " + a + m) == LoadValue(a + m + b)
  {
    var a' := " " + a;
    assert a' + m == a' + m + "";
    LoadOfPadded(a', m, "");
    LoadOfPadded(a, m, b);
  }

  /** Whatever the printed value is, the key comes back and the value is stripped once. */
  lemma ParsePrinted(k: string, p: string)
    requires KeyOk(k)
    ensures ParseLine(k + ": " + p) == Some((k, LoadValue(p)))
  {
    var m := TrimSpace(p);
    var a, b := TrimParts(p, IsSpace);
    if m == "" {
      assert p == a + b;
      ParseBlank(k, p);
    } else {
      ParseValue(k, a, m, b);
    }
  }

  // ----------------------------------------------------- faithful values

  /** Nothing in v is escaped. */
  predicate AllVerbatim(v: string, wide: char -> bool) {
    forall i :: 0 <= i < |v| ==> Verbatim(v[i], wide)
  }

  /** Values that survive: unquoted ones must be trimmed; quoted ones must need no escape and
      neither start nor end with a quote. */
  predicate Faithful(v: string, wide: char -> bool) {
    if Has(v, IsSpecial) then AllVerbatim(v, wide) && TrimmedBy(v, IsQuote) else Trimmed(v)
  }

  lemma {:induction false} EscapeLength(v: string, wide: char -> bool)
    ensures |Escape(v, wide)| >= |v|
    ensures |Escape(v, wide)| == |v| <==> AllVerbatim(v, wide)
    ensures AllVerbatim(v, wide) ==> Escape(v, wide) == v
    ensures v != "" ==> Escape(v, wide) != ""
  {
    if v != "" {
      var u, c := v[..|v| - 1], v[|v| - 1];
      EscapeLength(u, wide);
      assert v == u + [c];
      assert AllVerbatim(v, wide) <==> AllVerbatim(u, wide) && Verbatim(c, wide);
    }
  }

  lemma {:induction false} EscapeEnds(v: string, wide: char -> bool)
    requires v != ""
    ensures Escape(v, wide) != ""
    ensures !IsQuote(v[0]) ==> !IsQuote(Escape(v, wide)[0])
    ensures !IsQuote(v[|v| - 1]) ==> !IsQuote(Escape(v, wide)[|Escape(v, wide)| - 1])
  {
    var u, c := v[..|v| - 1], v[|v| - 1];
    var e := EscapeChar(c, wide);
    if u == "" {
      assert Escape(u, wide) + e == e;
    } else {
      EscapeEnds(u, wide);
      assert u[0] == v[0];
    }
  }

  lemma {:induction false} EscapeNoNewline(v: string, wide: char -> bool)
    ensures '\n' !in Escape(v, wide)
  {
    if v != "" {
      EscapeNoNewline(v[..|v| - 1], wide);
    }
  }

  lemma LoadQuoted(e: string)
    ensures LoadValue("\"" + e + "\"") == TrimBy(e, IsQuote)
  {
    TrimNothing("\"" + e + "\"", IsSpace);
    TrimPad("\"", e, "\"", IsQuote);
  }

  /** Loading strips quotes of either kind, and the white space around them. */
  lemma LoadStrips(m: string)
    requires m != "" && m[0] !in {'"', '\''} && m[|m| - 1] !in {'"', '\''}
    ensures LoadValue("\"" + m + "\"") == m && LoadValue("'" + m + "'") == m
  {
    LoadQuoted(m);
    TrimNothing(m, IsQuote);
    TrimNothing("'" + m + "'", IsSpace);
    TrimPad("'", m, "'", IsQuote);
  }

  lemma QuotedFaithful(v: string, wide: char -> bool)
    requires v != ""
    ensures TrimBy(Escape(v, wide), IsQuote) == v <==> AllVerbatim(v, wide) && TrimmedBy(v, IsQuote)
  {
    var e := Escape(v, wide);
    EscapeLength(v, wide);
    EscapeEnds(v, wide);
    var a, b := TrimParts(e, IsQuote);
    if TrimmedBy(v, IsQuote) {
      TrimNothing(e, IsQuote);
    }
  }

  lemma PlainFaithful(v: string)
    requires !Has(v, IsSpecial)
    ensures LoadValue(v) == v <==> Trimmed(v)
  {
    TrimSpaceTrims(v);
    var a, b := TrimParts(v, IsSpace);
    var m := TrimSpace(v);
    if m != "" {
      assert m[0] == v[|a|] && m[|m| - 1] == v[|a| + |m| - 1];
      assert !IsSpecial(v[|a|]) && !IsSpecial(v[|a| + |m| - 1]);
    }
    TrimNothing(m, IsQuote);
  }

  /** A value is read back unchanged if and only if it is faithful. */
  lemma ValueRoundTrip(v: string, wide: char -> bool)
    ensures LoadValue(PrintValue(v, wide)) == v <==> Faithful(v, wide)
  {
    if Has(v, IsSpecial) {
      LoadQuoted(Escape(v, wide));
      QuotedFaithful(v, wide);
    } else {
      PlainFaithful(v);
    }
  }

  // ---------------------------------------------------------- printing again

  function Backslashes(s: string): nat {
    if s == "" then 0 else Backslashes(s[..|s| - 1]) + if s[|s| - 1] == '\\' then 1 else 0
  }

  lemma {:induction false} BackslashesAppend(a: string, b: string)
    ensures Backslashes(a + b) == Backslashes(a) + Backslashes(b)
    decreases |b|
  {
    if b == "" {
      assert a + b == a;
    } else {
      assert (a + b)[..|a + b| - 1] == a + b[..|b| - 1];
      BackslashesAppend(a, b[..|b| - 1]);
    }
  }

  lemma {:induction false} NoBackslashes(s: string)
    requires forall i :: 0 <= i < |s| ==> s[i] != '\\'
    ensures Backslashes(s) == 0
  {
    if s != "" { NoBackslashes(s[..|s| - 1]); }
  }

  lemma EscapedBackslash(c: char, wide: char -> bool)
    ensures !Verbatim(c, wide) ==> Backslashes(EscapeChar(c, wide)) >= 1
    ensures c == '\\' ==> Backslashes(EscapeChar(c, wide)) == 2
  {
    var e := EscapeChar(c, wide);
    if !Verbatim(c, wide) {
      assert e == "\\" + e[1..];
      BackslashesAppend("\\", e[1..]);
      assert "\\"[..0] == "";
      assert c == '\\' ==> e[1..] == "\\";
    }
  }

  /** Escaping doubles each backslash, and adds one for each other character it escapes. */
  lemma {:induction false} EscapeGrows(v: string, wide: char -> bool)
    ensures Backslashes(Escape(v, wide)) >= 2 * Backslashes(v)
    ensures !AllVerbatim(v, wide) ==> Backslashes(Escape(v, wide)) >= 1
  {
    if v != "" {
      var u, c := v[..|v| - 1], v[|v| - 1];
      EscapeGrows(u, wide);
      EscapedBackslash(c, wide);
      BackslashesAppend(Escape(u, wide), EscapeChar(c, wide));
      assert AllVerbatim(u, wide) && Verbatim(c, wide) ==> AllVerbatim(v, wide);
    }
  }

  /** Cutting quotes off loses no backslash. */
  lemma TrimKeepsBackslashes(e: string)
    ensures Backslashes(TrimBy(e, IsQuote)) == Backslashes(e)
  {
    var a, b := TrimParts(e, IsQuote);
    var m := TrimBy(e, IsQuote);
    BackslashesAppend(a + m, b);
    BackslashesAppend(a, m);
    NoBackslashes(a);
    NoBackslashes(b);
  }

  /** Printing what was read back from a printed value gives the same text exactly for the faithful values. */
  lemma PrintAgainIff(v: string, wide: char -> bool)
    ensures PrintValue(v, wide) == PrintValue(LoadValue(PrintValue(v, wide)), wide) <==> Faithful(v, wide)
  {
    var p := PrintValue(v, wide);
    var r := LoadValue(p);
    ValueRoundTrip(v, wide);
    if !Faithful(v, wide) && PrintValue(r, wide) == p {
      if Has(v, IsSpecial) {
        QuotedAgain(v, r, wide);
      } else {
        PlainAgain(v, r, wide);
      }
    }
  }

  lemma PlainAgain(v: string, r: string, wide: char -> bool)
    requires !Has(v, IsSpecial) && r != v
    ensures PrintValue(r, wide) != v
  {
    if Has(r, IsSpecial) {
      var q := PrintValue(r, wide);
      assert q[0] == '"';
      assert v != "" ==> !IsSpecial(v[0]);
    }
  }

  lemma QuotedAgain(v: string, r: string, wide: char -> bool)
    requires Has(v, IsSpecial) && r == LoadValue(PrintValue(v, wide)) && r != v
    ensures PrintValue(r, wide) != PrintValue(v, wide)
  {
    var e := Escape(v, wide);
    LoadQuoted(e);
    var p := PrintValue(v, wide);
    assert p == "\"" + e + "\"" && p[0] == '"';
    if Has(r, IsSpecial) {
      EscapeDiffers(v, r, wide);
      var q := "\"" + Escape(r, wide) + "\"";
      assert e == p[1..|p| - 1] && Escape(r, wide) == q[1..|q| - 1];
    } else {
      assert r != "" ==> !IsSpecial(r[0]);
    }
  }

  lemma EscapeDiffers(v: string, r: string, wide: char -> bool)
    requires r == TrimBy(Escape(v, wide), IsQuote) && r != v
    ensures Escape(r, wide) != Escape(v, wide)
  {
    var e := Escape(v, wide);
    TrimKeepsBackslashes(e);
    EscapeGrows(v, wide);
    EscapeGrows(r, wide);
    EscapeLength(v, wide);
    EscapeLength(r, wide);
    if AllVerbatim(v, wide) {
      var a, b := TrimParts(e, IsQuote);
      assert v == a + r + b && |r| < |v|;
      forall i | 0 <= i < |r| ensures Verbatim(r[i], wide) { assert r[i] == v[|a| + i]; }
    }
  }

  // -------------------------------------------------------------- many rounds

  /** One round: the value is written and loaded again. */
  function Round(v: string, wide: char -> bool): string { LoadValue(PrintValue(v, wide)) }

  function Iterate(step: string -> string, v: string, n: nat): string {
    if n == 0 then v else step(Iterate(step, v, n - 1))
  }

  /** A value after n rounds. */
  function Rounds(v: string, wide: char -> bool, n: nat): string { Iterate(x => Round(x, wide), v, n) }

  lemma {:induction false} IterateKeeps(step: string -> string, good: string -> bool, v: string, n: nat)
    requires n >= 1 && good(step(v)) && forall x :: good(x) ==> good(step(x))
    ensures good(Iterate(step, v, n))
  {
    if n > 1 {
      IterateKeeps(step, good, v, n - 1);
    } else {
      assert Iterate(step, v, 0) == v;
    }
  }

  lemma {:induction false} IterateRests(step: string -> string, v: string, j: nat, n: nat)
    requires step(Iterate(step, v, j)) == Iterate(step, v, j) && j <= n
    ensures Iterate(step, v, n) == Iterate(step, v, j)
  {
    if j < n { IterateRests(step, v, j, n - 1); }
  }

  /** It needs escapes, and what is left when the quotes are cut off must be quoted again. */
  predicate Grows(v: string, wide: char -> bool) {
    Has(v, IsSpecial) && !AllVerbatim(v, wide) && Has(TrimBy(Escape(v, wide), IsQuote), IsSpecial)
  }

  /** Between quotes that are cut off, a text with an escape in it that will be quoted again. */
  predicate Growing(r: string) {
    Has(r, IsSpecial) && '\n' !in r && TrimmedBy(r, IsQuote) && Backslashes(r) >= 1
  }

  lemma {:induction false} EscapeKeeps(v: string, wide: char -> bool, i: nat)
    requires i < |v| && IsSpecial(v[i]) && v[i] != '\n'
    ensures Has(Escape(v, wide), IsSpecial)
  {
    var u, c := v[..|v| - 1], v[|v| - 1];
    var e, f := Escape(u, wide), EscapeChar(c, wide);
    if i < |u| {
      EscapeKeeps(u, wide, i);
      var j :| 0 <= j < |e| && IsSpecial(e[j]);
      assert (e + f)[j] == e[j];
    } else {
      assert (e + f)[|e| + |f| - 1] == c;
    }
  }

  /** A growing value is escaped as a whole, and grows on. */
  lemma GrowingRound(r: string, wide: char -> bool)
    requires Growing(r)
    ensures var x := Round(r, wide);
            x == Escape(r, wide) && Growing(x) && Backslashes(x) >= 2 * Backslashes(r)
  {
    var e := Escape(r, wide);
    LoadQuoted(e);
    EscapeEnds(r, wide);
    TrimNothing(e, IsQuote);
    EscapeGrows(r, wide);
    EscapeNoNewline(r, wide);
    var i :| 0 <= i < |r| && IsSpecial(r[i]);
    EscapeKeeps(r, wide, i);
  }

  /** Cutting quotes off adds no character, and leaves no quote at the ends. */
  lemma TrimQuotes(e: string, wide: char -> bool)
    ensures var r := TrimBy(e, IsQuote);
            && TrimmedBy(r, IsQuote) && ('\n' !in e ==> '\n' !in r)
            && (AllVerbatim(e, wide) ==> AllVerbatim(r, wide))
  {
    var a, b := TrimParts(e, IsQuote);
    var r := TrimBy(e, IsQuote);
    assert forall i :: 0 <= i < |r| ==> r[i] == e[|a| + i];
  }

  lemma FirstRound(v: string, wide: char -> bool)
    requires Grows(v, wide)
    ensures Growing(Round(v, wide))
  {
    var e := Escape(v, wide);
    LoadQuoted(e);
    TrimKeepsBackslashes(e);
    EscapeGrows(v, wide);
    EscapeNoNewline(v, wide);
    TrimQuotes(e, wide);
  }

  lemma GrowingIsUnfaithful(r: string, wide: char -> bool)
    requires Growing(r)
    ensures !Faithful(r, wide)
  {
    GrowingRound(r, wide);
    ValueRoundTrip(r, wide);
  }

  /** From the first round on, the backslashes at least double in every round. */
  lemma GrowsForEver(v: string, wide: char -> bool, n: nat)
    requires Grows(v, wide) && n >= 1
    ensures !Faithful(Rounds(v, wide, n), wide)
    ensures Backslashes(Rounds(v, wide, n + 1)) >= 2 * Backslashes(Rounds(v, wide, n)) >= 2
  {
    FirstRound(v, wide);
    forall x | Growing(x) ensures Growing(Round(x, wide)) { GrowingRound(x, wide); }
    IterateKeeps(x => Round(x, wide), x => Growing(x), v, n);
    GrowingRound(Rounds(v, wide, n), wide);
    GrowingIsUnfaithful(Rounds(v, wide, n), wide);
  }

  lemma PlainSettles(v: string, wide: char -> bool)
    requires !Has(v, IsSpecial)
    ensures Faithful(Round(v, wide), wide)
  {
    var m := TrimSpace(v);
    var a, b := TrimParts(v, IsSpace);
    forall i | 0 <= i < |m| ensures !IsSpecial(m[i]) { assert m[i] == v[|a| + i]; }
    TrimNothing(m, IsQuote);
  }

  lemma TwoRounds(v: string, wide: char -> bool)
    ensures Rounds(v, wide, 0) == v && Rounds(v, wide, 2) == Round(Round(v, wide), wide)
  {
    var step := x => Round(x, wide);
    assert Iterate(step, v, 0) == v;
    assert Iterate(step, v, 1) == step(v);
    assert Iterate(step, v, 2) == step(Iterate(step, v, 1));
  }

  /** A value that does not grow is faithful after one round, unless the cut laid spaces bare. */
  lemma SettlesInOne(v: string, wide: char -> bool)
    requires !Grows(v, wide) && Has(Round(v, wide), IsSpecial)
    ensures Faithful(Round(v, wide), wide)
  {
    if Has(v, IsSpecial) {
      LoadQuoted(Escape(v, wide));
      EscapeLength(v, wide);
      TrimQuotes(v, wide);
    } else {
      PlainSettles(v, wide);
    }
  }

  /** Every other value is faithful after two rounds at most. */
  lemma SettlesInTwo(v: string, wide: char -> bool)
    requires !Grows(v, wide)
    ensures Faithful(Rounds(v, wide, 2), wide)
  {
    TwoRounds(v, wide);
    if Has(Round(v, wide), IsSpecial) {
      SettlesInOne(v, wide);
      ValueRoundTrip(Round(v, wide), wide);
    } else {
      PlainSettles(Round(v, wide), wide);
    }
  }

  /**
   Writing and loading over and over comes to rest if and only if the value does not grow,
   and then after two rounds at most.
   */
  lemma SettlesIff(v: string, wide: char -> bool)
    ensures (exists n: nat :: Faithful(Rounds(v, wide, n), wide)) <==> !Grows(v, wide)
    ensures !Grows(v, wide) ==> forall n: nat :: n >= 2 ==> Rounds(v, wide, n) == Rounds(v, wide, 2)
  {
    if Grows(v, wide) {
      forall n: nat ensures !Faithful(Rounds(v, wide, n), wide) {
        if n >= 1 { GrowsForEver(v, wide, n); }
      }
    } else {
      SettlesInTwo(v, wide);
      ValueRoundTrip(Rounds(v, wide, 2), wide);
      forall n: nat | n >= 2 ensures Rounds(v, wide, n) == Rounds(v, wide, 2) {
        IterateRests(x => Round(x, wide), v, 2, n);
      }
    }
  }
}
