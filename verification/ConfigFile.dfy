/**
 The config.yml file as a whole: WriteYml's merge and sorted rewrite, loadYml's fold over
 the lines, and the round trip between them.
 */
module ConfigFile {
  import opened Wrappers
  import opened Text
  import opened ConfigYml
  import KeyOrder

  // ----------------------------------------------------------- file lines

  function Newline(s: string, i: nat): (n: nat)
    requires i <= |s|
    ensures i <= n <= |s| && (n < |s| ==> s[n] == '\n')
    ensures forall k :: i <= k < n ==> s[k] != '\n'
    decreases |s| - i
  {
    if i == |s| || s[i] == '\n' then i else Newline(s, i + 1)
  }

  /** The scanner drops one trailing CR of a line. */
  function DropCR(s: string): string {
    if s != "" && s[|s| - 1] == '\r' then s[..|s| - 1] else s
  }

  /** Lines as the scanner yields them. */
  function FileLines(text: string): seq<string>
    decreases |text|
  {
    if text == "" then []
    else
      var n := Newline(text, 0);
      if n == |text| then [DropCR(text)] else [DropCR(text[..n])] + FileLines(text[n + 1..])
  }

  function JoinLines(lines: seq<string>): string {
    if lines == [] then "" else lines[0] + "\n" + JoinLines(lines[1..])
  }

  function Bind(m: map<string, string>, b: Option<(string, string)>): map<string, string> {
    match b
    case None => m
    case Some((k, v)) => m[k := v]
  }

  type Parser = string -> Option<(string, string)>

  function LoadLines(lines: seq<string>, parse: Parser, m: map<string, string>): map<string, string> {
    if lines == [] then m else LoadLines(lines[1..], parse, Bind(m, parse(lines[0])))
  }

  /** loadYml on top of the map `m`. */
  function Load(text: string, m: map<string, string>): map<string, string> { LoadLines(FileLines(text), ParseLine, m) }

  /** Line i binds x, and no later line does. */
  ghost predicate BindsLast(lines: seq<string>, parse: Parser, x: string, i: nat) {
    && i < |lines| && parse(lines[i]).Some? && parse(lines[i]).value.0 == x
    && forall j :: i < j < |lines| && parse(lines[j]).Some? ==> parse(lines[j]).value.0 != x
  }

  /** The last line that binds a key decides its value. */
  lemma {:induction false} LastLineWins(
    lines: seq<string>, parse: Parser, m: map<string, string>, x: string, i: nat)
    requires BindsLast(lines, parse, x, i)
    ensures var r := LoadLines(lines, parse, m); x in r && r[x] == parse(lines[i]).value.1
    decreases i
  {
    if i > 0 {
      LastLineWins(lines[1..], parse, Bind(m, parse(lines[0])), x, i - 1);
    } else {
      UnboundStays(lines[1..], parse, Bind(m, parse(lines[0])), x);
    }
  }

  lemma {:induction false} UnboundStays(lines: seq<string>, parse: Parser, m: map<string, string>, x: string)
    requires forall j :: 0 <= j < |lines| && parse(lines[j]).Some? ==> parse(lines[j]).value.0 != x
    ensures var r := LoadLines(lines, parse, m); (x in r <==> x in m) && (x in m ==> r[x] == m[x])
  {
    if lines != [] { UnboundStays(lines[1..], parse, Bind(m, parse(lines[0])), x); }
  }

  lemma TrimDropCR(s: string)
    ensures TrimSpace(DropCR(s)) == TrimSpace(s)
  {
    var x := DropCR(s);
    if x != s {
      assert s == "" + x + "\r";
      TrimPad("", x, "\r", IsSpace);
    }
  }

  lemma ParsedAlike(a: string, b: string)
    requires TrimSpace(a) == TrimSpace(b)
    ensures ParseLine(a) == ParseLine(b)
  {
    var t := TrimSpace(a);
    assert t != "" && t[0] != '#' ==> Colon(t, 0) <= |t|;
  }

  lemma DropCRHarmless(s: string)
    ensures ParseLine(DropCR(s)) == ParseLine(s)
  {
    TrimDropCR(s);
    ParsedAlike(DropCR(s), s);
  }

  lemma FirstLine(line: string, rest: string)
    requires '\n' !in line
    ensures FileLines(line + "\n" + rest) == [DropCR(line)] + FileLines(rest)
  {
    var text := line + "\n" + rest;
    assert text[|line|] == '\n';
    assert forall k :: 0 <= k < |line| ==> text[k] == line[k];
    var n := Newline(text, 0);
    assert n == |line|;
    assert text[..n] == line && text[n + 1..] == rest;
  }

  /** Reading joined lines is reading the lines. */
  lemma {:induction false} LoadJoined(lines: seq<string>, m: map<string, string>)
    requires forall i :: 0 <= i < |lines| ==> '\n' !in lines[i]
    ensures Load(JoinLines(lines), m) == LoadLines(lines, ParseLine, m)
  {
    if lines != [] {
      var rest := JoinLines(lines[1..]);
      FirstLine(lines[0], rest);
      DropCRHarmless(lines[0]);
      var ls := FileLines(lines[0] + "\n" + rest);
      assert ls[1..] == FileLines(rest);
      LoadJoined(lines[1..], Bind(m, ParseLine(lines[0])));
    }
  }

  lemma {:induction false} LoadAppend(a: seq<string>, b: seq<string>, parse: Parser, m: map<string, string>)
    ensures LoadLines(a + b, parse, m) == LoadLines(b, parse, LoadLines(a, parse, m))
  {
    if a == [] {
      assert a + b == b;
    } else {
      assert (a + b)[1..] == a[1..] + b;
      LoadAppend(a[1..], b, parse, Bind(m, parse(a[0])));
    }
  }

  // --------------------------------------------------------- the rendering

  function KeyLines(m: map<string, string>, keys: seq<string>, wide: char -> bool): (r: seq<string>)
    requires forall i :: 0 <= i < |keys| ==> keys[i] in m
    ensures |r| == |keys|
    ensures forall i :: 0 <= i < |keys| ==> r[i] == PrintLine(keys[i], m[keys[i]], wide)
  {
    seq(|keys|, i requires 0 <= i < |keys| => PrintLine(keys[i], m[keys[i]], wide))
  }

  /** Lines of the fixed comment block at the top of the file. */
  predicate CommentLines(header: seq<string>) {
    forall i :: 0 <= i < |header| ==> (header[i] == "" || header[i][0] == '#') && '\n' !in header[i]
  }

  /** The text WriteYml puts on disk for map `m`, keys in the given order. */
  function Render(header: seq<string>, m: map<string, string>, keys: seq<string>, wide: char -> bool): string
    requires forall i :: 0 <= i < |keys| ==> keys[i] in m
  {
    JoinLines(header + KeyLines(m, keys, wide))
  }

  lemma CommentIgnored(line: string)
    requires line == "" || line[0] == '#'
    ensures ParseLine(line) == None
  {
  }

  lemma StartsSolid(a: string, t: string, b: string, s: string)
    requires s == a + t + b && AllOf(a, IsSpace) && AllOf(b, IsSpace) && s != "" && !IsSpace(s[0])
    ensures t != "" && t[0] == s[0]
  {
  }

  lemma {:induction false} HeaderIgnored(header: seq<string>, m: map<string, string>)
    requires CommentLines(header)
    ensures LoadLines(header, ParseLine, m) == m
  {
    if header != [] {
      CommentIgnored(header[0]);
      HeaderIgnored(header[1..], m);
    }
  }

  /** The map of the listed keys to their values. */
  function Table(keys: seq<string>, value: string -> string): map<string, string> {
    if keys == [] then map[] else map[keys[0] := value(keys[0])] + Table(keys[1..], value)
  }

  lemma {:induction false} TableEntries(keys: seq<string>, value: string -> string, k: string)
    ensures k in Table(keys, value) <==> k in keys
    ensures k in keys ==> Table(keys, value)[k] == value(k)
  {
    if keys != [] { TableEntries(keys[1..], value, k); }
  }

  /** Lines that each bind one key, to the value `value` has for it. */
  lemma {:induction false} LoadBindings(
    lines: seq<string>, keys: seq<string>, value: string -> string, parse: Parser, acc: map<string, string>)
    requires |lines| == |keys|
    requires forall i :: 0 <= i < |keys| ==> parse(lines[i]) == Some((keys[i], value(keys[i])))
    ensures LoadLines(lines, parse, acc) == acc + Table(keys, value)
    decreases |keys|
  {
    if keys != [] {
      var k0, v0 := keys[0], value(keys[0]);
      assert parse(lines[0]) == Some((k0, v0));
      LoadBindings(lines[1..], keys[1..], value, parse, acc[k0 := v0]);
      PutThenAdd(acc, k0, v0, Table(keys[1..], value));
    }
  }

  lemma PutThenAdd(acc: map<string, string>, k: string, v: string, t: map<string, string>)
    ensures acc[k := v] + t == acc + (map[k := v] + t)
  {
  }

  /** What reading back makes of the value stored under k. */
  function Reread(m: map<string, string>, wide: char -> bool, k: string): string {
    if k in m then LoadValue(PrintValue(m[k], wide)) else ""
  }

  lemma ValueHasNoNewline(v: string, wide: char -> bool)
    ensures '\n' !in PrintValue(v, wide)
  {
    EscapeNoNewline(v, wide);
    if !Has(v, IsSpecial) {
      forall i | 0 <= i < |v| ensures v[i] != '\n' {
        assert !IsSpecial(v[i]);
      }
    }
  }

  lemma LineHasNoNewline(k: string, v: string, wide: char -> bool)
    requires KeyOk(k)
    ensures '\n' !in PrintLine(k, v, wide)
  {
    ValueHasNoNewline(v, wide);
  }

  lemma LoadKeyLines(m: map<string, string>, keys: seq<string>, wide: char -> bool)
    requires forall i :: 0 <= i < |keys| ==> keys[i] in m && KeyOk(keys[i])
    ensures LoadLines(KeyLines(m, keys, wide), ParseLine, map[]) == Table(keys, k => Reread(m, wide, k))
  {
    var lines, value := KeyLines(m, keys, wide), k => Reread(m, wide, k);
    forall i | 0 <= i < |keys| ensures ParseLine(lines[i]) == Some((keys[i], value(keys[i]))) {
      KeyLineParses(m, keys[i], wide);
    }
    LoadBindings(lines, keys, value, ParseLine, map[]);
    assert map[] + Table(keys, value) == Table(keys, value);
  }

  lemma KeyLineParses(m: map<string, string>, k: string, wide: char -> bool)
    requires k in m && KeyOk(k)
    ensures ParseLine(PrintLine(k, m[k], wide)) == Some((k, Reread(m, wide, k)))
  {
    ParsePrinted(k, PrintValue(m[k], wide));
  }

  /** The whole file: with good keys, reading back strips each value once and nothing else. */
  lemma LoadOfRender(header: seq<string>, m: map<string, string>, keys: seq<string>, wide: char -> bool)
    requires CommentLines(header)
    requires forall i :: 0 <= i < |keys| ==> keys[i] in m && KeyOk(keys[i])
    ensures Load(Render(header, m, keys, wide), map[]) == Table(keys, k => Reread(m, wide, k))
  {
    var body := KeyLines(m, keys, wide);
    forall i | 0 <= i < |body| ensures '\n' !in body[i] {
      LineHasNoNewline(keys[i], m[keys[i]], wide);
    }
    LoadJoined(header + body, map[]);
    LoadAppend(header, body, ParseLine, map[]);
    HeaderIgnored(header, map[]);
    LoadKeyLines(m, keys, wide);
  }

  /** `keys` lists the keys of `m`. */
  predicate Enumerates(keys: seq<string>, m: map<string, string>) {
    (forall i :: 0 <= i < |keys| ==> keys[i] in m) && (forall k :: k in m ==> k in keys)
  }

  /**
   config.yml round trip, for every map whose keys are good: reading what was written gives
   the map back if and only if every value is faithful.
   */
  lemma ConfigRoundTrip(header: seq<string>, m: map<string, string>, keys: seq<string>, wide: char -> bool)
    requires CommentLines(header) && Enumerates(keys, m) && forall k :: k in m ==> KeyOk(k)
    ensures Load(Render(header, m, keys, wide), map[]) == m <==> forall k :: k in m ==> Faithful(m[k], wide)
    ensures Load(Render(header, m, keys, wide), map[]).Keys == m.Keys
  {
    LoadOfRender(header, m, keys, wide);
    var r := Table(keys, k => Reread(m, wide, k));
    forall k ensures k in r <==> k in m {
      TableEntries(keys, k => Reread(m, wide, k), k);
    }
    forall k | k in m ensures r[k] == m[k] <==> Faithful(m[k], wide) {
      TableEntries(keys, k => Reread(m, wide, k), k);
      ValueRoundTrip(m[k], wide);
    }
    SameMap(r, m, k => k in m && Faithful(m[k], wide));
  }

  lemma SameMap(r: map<string, string>, m: map<string, string>, good: string -> bool)
    requires r.Keys == m.Keys && forall k :: k in m ==> (r[k] == m[k] <==> good(k))
    ensures r == m <==> forall k :: k in m ==> good(k)
  {
  }

  // ------------------------------------------------------- the yml tier

  const ENV_ONLY: set<string> := {
    "site_url", "agent_token", "vpn_provider", "vpn_download_only", "vpn_proxy_addr",
    "nntp_server", "nntp_ssl", "nntp_connections", "nntp_user", "nntp_pass",
    "nntp_group", "nntp_poster", "nntp_from", "nntp_domain" }

  /** The updates in iteration order: the last of several keys equal up to case wins. */
  function Merge(m: map<string, string>, updates: seq<(string, string)>, denied: set<string>): map<string, string> {
    if updates == [] then m
    else
      var (k, v) := updates[|updates| - 1];
      var m' := Merge(m, updates[..|updates| - 1], denied);
      if ToLower(k) in denied then m' else m'[ToLower(k) := v]
  }

  /** The keys taken over from the updates, in iteration order. */
  function AcceptedKeys(updates: seq<(string, string)>, denied: set<string>): seq<string> {
    if updates == [] then []
    else
      var rest, kk := AcceptedKeys(updates[..|updates| - 1], denied), ToLower(updates[|updates| - 1].0);
      if kk in denied then rest else rest + [kk]
  }

  /** Update i sets x, unless x is denied. */
  predicate Sets(updates: seq<(string, string)>, i: int, x: string) {
    0 <= i < |updates| && ToLower(updates[i].0) == x
  }

  /** Denied keys keep what they had; other entries are old ones or come from an update. */
  lemma {:induction false} MergeEntries(
    m: map<string, string>, updates: seq<(string, string)>, denied: set<string>, x: string)
    ensures var r := Merge(m, updates, denied);
            && (x in denied ==> (x in r <==> x in m) && (x in m ==> r[x] == m[x]))
            && (x in r ==> (x in m && r[x] == m[x]) || exists i :: Sets(updates, i, x) && r[x] == updates[i].1)
            && (x !in denied ==> (x in r <==> x in m || exists i :: Sets(updates, i, x)))
            && (forall i :: x !in denied && Sets(updates, i, x) && (forall j :: i < j ==> !Sets(updates, j, x)) ==>
                  x in r && r[x] == updates[i].1)
  {
    if updates != [] {
      var n := |updates| - 1;
      var rest := updates[..n];
      MergeEntries(m, rest, denied, x);
      assert forall i :: Sets(rest, i, x) ==> Sets(updates, i, x) && rest[i] == updates[i];
      assert forall i :: Sets(updates, i, x) && i != n ==> Sets(rest, i, x);
      assert ToLower(updates[n].0) == x ==> Sets(updates, n, x);
    }
  }

  /** The keys taken over are those of the updates that are not denied. */
  lemma {:induction false} AcceptedIs(updates: seq<(string, string)>, denied: set<string>, x: string)
    ensures x in AcceptedKeys(updates, denied) <==> x !in denied && exists i :: Sets(updates, i, x)
  {
    if updates != [] {
      var n := |updates| - 1;
      AcceptedIs(updates[..n], denied, x);
      assert forall i :: Sets(updates[..n], i, x) ==> Sets(updates, i, x);
      assert forall i :: Sets(updates, i, x) && i != n ==> Sets(updates[..n], i, x);
      assert ToLower(updates[n].0) == x ==> Sets(updates, n, x);
    }
  }

  /** The settings that belong to the environment. */
  lemma EnvOnlyHas()
    ensures "site_url" in ENV_ONLY && "agent_token" in ENV_ONLY
    ensures "vpn_provider" in ENV_ONLY && "vpn_download_only" in ENV_ONLY && "vpn_proxy_addr" in ENV_ONLY
    ensures "nntp_server" in ENV_ONLY && "nntp_ssl" in ENV_ONLY && "nntp_connections" in ENV_ONLY
    ensures "nntp_user" in ENV_ONLY && "nntp_pass" in ENV_ONLY && "nntp_group" in ENV_ONLY
    ensures "nntp_poster" in ENV_ONLY && "nntp_from" in ENV_ONLY && "nntp_domain" in ENV_ONLY
  {
  }

  class Layered {
    const header: seq<string>
    const wide: char -> bool
    var yml: map<string, string>
    var file: string
    var writable: bool

    constructor (header: seq<string>, wide: char -> bool, file: string, writable: bool)
      ensures this.file == file && this.writable == writable && this.header == header && this.wide == wide
      ensures yml == Load(file, map[])
    {
      this.header, this.wide, this.file, this.writable := header, wide, file, writable;
      yml := map[];
      new;
      LoadYml();
    }

    /** loadYml: one binding per line, the last one of a key winning. */
    method LoadYml()
      modifies `yml
      ensures yml == Load(file, old(yml))
    {
      var lines := FileLines(file);
      for i := 0 to |lines|
        invariant LoadLines(lines[i..], ParseLine, yml) == Load(file, old(yml))
      {
        assert lines[i..][0] == lines[i] && lines[i..][1..] == lines[i + 1..];
        yml := Bind(yml, ParseLine(lines[i]));
      }
      assert lines[|lines|..] == [];
    }

    /** WriteYml: merge the updates that are not env-only, then rewrite the file sorted. */
    method WriteYml(updates: seq<(string, string)>) returns (written: Option<seq<string>>)
      modifies `yml, `file
      ensures !writable ==> written.None? && yml == old(yml) && file == old(file)
      ensures writable ==>
                && written.Some? && KeyOrder.Ordered(written.value)
                && multiset(written.value) == multiset(AcceptedKeys(updates, ENV_ONLY))
                && yml == Merge(old(yml), updates, ENV_ONLY)
      ensures writable ==>
                exists keys :: KeyOrder.Sorted(keys) && Enumerates(keys, yml) && file == Render(header, yml, keys, wide)
    {
      if !writable {
        return None;
      }
      var done: seq<string> := [];
      for i := 0 to |updates|
        invariant yml == Merge(old(yml), updates[..i], ENV_ONLY)
        invariant done == AcceptedKeys(updates[..i], ENV_ONLY)
      {
        var (k, v) := updates[i];
        var kk := ToLower(k);
        assert updates[..i + 1][..i] == updates[..i] && updates[..i + 1][i] == updates[i];
        if kk !in ENV_ONLY {
          yml := yml[kk := v];
          done := done + [kk];
        }
      }
      assert updates[..|updates|] == updates;
      var sorted := KeyOrder.SortList(done);
      var keys := KeyOrder.Sort(yml.Keys);
      assert Enumerates(keys, yml) by {
        forall i | 0 <= i < |keys| ensures keys[i] in yml { assert keys[i] in keys; }
      }
      file := Render(header, yml, keys, wide);
      written := Some(sorted);
    }
  }

  // -------------------------------------------------------------- rewriting

  /** The file is a function of the map: rewriting without updates changes nothing. */
  lemma RewriteIsIdempotent(
    header: seq<string>, m: map<string, string>, a: seq<string>, b: seq<string>, wide: char -> bool)
    requires KeyOrder.Sorted(a) && KeyOrder.Sorted(b) && Enumerates(a, m) && Enumerates(b, m)
    ensures Render(header, m, a, wide) == Render(header, m, b, wide)
    ensures Merge(m, [], ENV_ONLY) == m
  {
    forall k ensures k in a <==> k in b {
      if k in a { var i :| 0 <= i < |a| && a[i] == k; }
      if k in b { var i :| 0 <= i < |b| && b[i] == k; }
    }
    KeyOrder.SortedUnique(a, b);
  }

  lemma NewlineAt(a: string, b: string)
    requires '\n' !in a
    ensures Newline(a + "\n" + b, 0) == |a|
  {
    var s := a + "\n" + b;
    assert s[|a|] == '\n';
    assert forall k :: 0 <= k < |a| ==> s[k] == a[k];
  }

  /** Lines without newlines can be told from the text they make. */
  lemma {:induction false} JoinInjective(a: seq<string>, b: seq<string>)
    requires |a| == |b| && JoinLines(a) == JoinLines(b)
    requires forall i :: 0 <= i < |a| ==> '\n' !in a[i] && '\n' !in b[i]
    ensures a == b
  {
    if a != [] {
      var x, y := JoinLines(a[1..]), JoinLines(b[1..]);
      NewlineAt(a[0], x);
      NewlineAt(b[0], y);
      var s := a[0] + "\n" + x;
      assert s == b[0] + "\n" + y;
      assert a[0] == s[..|a[0]|] == b[0];
      assert x == s[|a[0]| + 1..] == y;
      JoinInjective(a[1..], b[1..]);
      assert a == [a[0]] + a[1..] && b == [b[0]] + b[1..];
    }
  }

  lemma LinesHaveNoNewline(header: seq<string>, m: map<string, string>, keys: seq<string>, wide: char -> bool)
    requires CommentLines(header)
    requires forall i :: 0 <= i < |keys| ==> keys[i] in m && KeyOk(keys[i])
    ensures var lines := header + KeyLines(m, keys, wide); forall i :: 0 <= i < |lines| ==> '\n' !in lines[i]
  {
    forall i | 0 <= i < |keys| ensures '\n' !in PrintLine(keys[i], m[keys[i]], wide) {
      LineHasNoNewline(keys[i], m[keys[i]], wide);
    }
  }

  /** Two maps with the same keys have the same file exactly when they print the same values. */
  lemma SameFileIff(
    header: seq<string>, m: map<string, string>, r: map<string, string>, keys: seq<string>, wide: char -> bool)
    requires CommentLines(header)
    requires forall i :: 0 <= i < |keys| ==> keys[i] in m && keys[i] in r && KeyOk(keys[i])
    ensures Render(header, m, keys, wide) == Render(header, r, keys, wide) <==>
            forall i :: 0 <= i < |keys| ==> PrintValue(m[keys[i]], wide) == PrintValue(r[keys[i]], wide)
  {
    var a, b := KeyLines(m, keys, wide), KeyLines(r, keys, wide);
    if Render(header, m, keys, wide) == Render(header, r, keys, wide) {
      LinesHaveNoNewline(header, m, keys, wide);
      LinesHaveNoNewline(header, r, keys, wide);
      JoinInjective(header + a, header + b);
      forall i | 0 <= i < |keys| ensures PrintValue(m[keys[i]], wide) == PrintValue(r[keys[i]], wide) {
        assert (header + a)[|header| + i] == a[i] && (header + b)[|header| + i] == b[i];
        SameSuffix(keys[i] + ": ", PrintValue(m[keys[i]], wide), PrintValue(r[keys[i]], wide));
      }
    } else {
      assert a != b;
      var i :| 0 <= i < |keys| && a[i] != b[i];
    }
  }

  lemma SameSuffix(p: string, a: string, b: string)
    requires p + a == p + b
    ensures a == b
  {
    assert a == (p + a)[|p|..] && b == (p + b)[|p|..];
  }

  /** Write, load, write: the second file is the first one if and only if every value is faithful. */
  lemma RewriteIff(header: seq<string>, m: map<string, string>, keys: seq<string>, wide: char -> bool)
    requires CommentLines(header) && Enumerates(keys, m) && forall k :: k in m ==> KeyOk(k)
    ensures var r := Load(Render(header, m, keys, wide), map[]);
            && Enumerates(keys, r)
            && (Render(header, r, keys, wide) == Render(header, m, keys, wide) <==>
                forall k :: k in m ==> Faithful(m[k], wide))
  {
    var r := Load(Render(header, m, keys, wide), map[]);
    ConfigRoundTrip(header, m, keys, wide);
    LoadOfRender(header, m, keys, wide);
    SameFileIff(header, m, r, keys, wide);
    forall k | k in m ensures PrintValue(m[k], wide) == PrintValue(r[k], wide) <==> Faithful(m[k], wide) {
      TableEntries(keys, k => Reread(m, wide, k), k);
      PrintAgainIff(m[k], wide);
    }
    EveryKey(keys, m, k => k in m && k in r && PrintValue(m[k], wide) == PrintValue(r[k], wide));
  }

  lemma EveryKey(keys: seq<string>, m: map<string, string>, good: string -> bool)
    requires Enumerates(keys, m)
    ensures (forall i :: 0 <= i < |keys| ==> good(keys[i])) <==> (forall k :: k in m ==> good(k))
  {
  }

  /** One round of the whole map keeps its keys and takes each value through one round. */
  lemma RoundOfMap(header: seq<string>, m: map<string, string>, keys: seq<string>, wide: char -> bool)
    requires CommentLines(header) && Enumerates(keys, m) && forall k :: k in m ==> KeyOk(k)
    ensures var r := Load(Render(header, m, keys, wide), map[]);
            && Enumerates(keys, r) && r.Keys == m.Keys
            && (forall k :: k in m ==> r[k] == Round(m[k], wide))
  {
    ConfigRoundTrip(header, m, keys, wide);
    LoadOfRender(header, m, keys, wide);
    forall k | k in m ensures Load(Render(header, m, keys, wide), map[])[k] == Round(m[k], wide) {
      TableEntries(keys, k => Reread(m, wide, k), k);
    }
  }

  /**
   Loaded and written over and over, a file is the same from the third writing on if and only
   if none of its values grows.
   */
  lemma FileRestsIff(header: seq<string>, m: map<string, string>, keys: seq<string>, wide: char -> bool)
    requires CommentLines(header) && Enumerates(keys, m) && forall k :: k in m ==> KeyOk(k)
    ensures var r1 := Load(Render(header, m, keys, wide), map[]);
            Enumerates(keys, r1) &&
            var r2 := Load(Render(header, r1, keys, wide), map[]);
            Enumerates(keys, r2) &&
            var r3 := Load(Render(header, r2, keys, wide), map[]);
            Enumerates(keys, r3) &&
            (Render(header, r3, keys, wide) == Render(header, r2, keys, wide) <==>
             forall k :: k in m ==> !Grows(m[k], wide))
  {
    var r1 := Load(Render(header, m, keys, wide), map[]);
    RoundOfMap(header, m, keys, wide);
    var r2 := Load(Render(header, r1, keys, wide), map[]);
    RoundOfMap(header, r1, keys, wide);
    RewriteIff(header, r2, keys, wide);
    forall k | k in m ensures Faithful(r2[k], wide) <==> !Grows(m[k], wide) {
      TwoRounds(m[k], wide);
      if Grows(m[k], wide) { GrowsForEver(m[k], wide, 2); } else { SettlesInTwo(m[k], wide); }
    }
  }
}
