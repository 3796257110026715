/**
 Which keys a written config.yml declares when it is loaded again, for arbitrary maps. WriteYml refuses the
 env-only keys by name, but the file is read line by line and each line is cut at its first
 ':' and trimmed; the keys a reader finds are therefore not the keys that were written.
 */
module ConfigLeak {
  import opened Wrappers
  import opened Text
  import opened ConfigYml
  import opened ConfigFile

  // ----------------------------------------------------- the key of one line

  /** What the text before the first ':' of a line stands for: the trimmed key, unless that is a comment. */
  function KeyFrom(x: string): Option<string> {
    var k := TrimSpace(x);
    if k != "" && k[0] == '#' then None else Some(ToLower(k))
  }

  /** The key a line declares. */
  function KeyOf(line: string): Option<string> {
    var c := Colon(line, 0);
    if c == |line| then None else KeyFrom(line[..c])
  }

  function KeyOfBinding(b: Option<(string, string)>): Option<string> {
    match b case None => None case Some((k, v)) => Some(k)
  }

  lemma ColonIs(s: string, n: nat)
    requires n <= |s| && (n < |s| ==> s[n] == ':') && forall k :: 0 <= k < n ==> s[k] != ':'
    ensures Colon(s, 0) == n
  {
  }

  lemma ColonInside(a: string, t: string, b: string)
    requires AllOf(a, IsSpace) && AllOf(b, IsSpace)
    ensures Colon(a + t + b, 0) == if Colon(t, 0) < |t| then |a| + Colon(t, 0) else |a + t + b|
  {
    var s, i := a + t + b, Colon(t, 0);
    assert forall k :: 0 <= k < |a| ==> s[k] == a[k];
    assert forall k :: |a| <= k < |a| + |t| ==> s[k] == t[k - |a|];
    assert forall k :: |a| + |t| <= k < |s| ==> s[k] == b[k - |a| - |t|];
    if i < |t| {
      assert s[|a| + i] == ':';
      ColonIs(s, |a| + i);
    } else {
      ColonIs(s, |s|);
    }
  }

  /** A trimmed text cut at i > 0 keeps its first character when trimmed again. */
  lemma CutStart(t: string, i: nat)
    requires Trimmed(t) && 0 < i <= |t|
    ensures TrimSpace(t[..i]) != "" && TrimSpace(t[..i])[0] == t[0]
  {
    var a, b := TrimParts(t[..i], IsSpace);
    StartsSolid(a, TrimSpace(t[..i]), b, t[..i]);
  }

  lemma KeyFromPadded(a: string, x: string)
    requires AllOf(a, IsSpace)
    ensures KeyFrom(a + x) == KeyFrom(x)
  {
    TrimPad(a, x, "", IsSpace);
    assert a + x + "" == a + x;
  }

  /** The parser's view of a trimmed line with a ':' at i. */
  lemma ParsedTrimmed(t: string, i: nat)
    requires Trimmed(t) && i < |t| && t[i] == ':'
    ensures t[0] == '#' <==> KeyFrom(t[..i]).None?
  {
    if i > 0 { CutStart(t, i); } else { TrimNothing("", IsSpace); }
  }

  /** White space around a line does not change its key. */
  lemma KeyOfPadded(line: string, a: string, t: string, b: string)
    requires line == a + t + b && AllOf(a, IsSpace) && AllOf(b, IsSpace)
    ensures KeyOf(line) == KeyOf(t)
  {
    ColonInside(a, t, b);
    var i := Colon(t, 0);
    if i < |t| {
      PrefixParts(line, a, t, b, i);
      KeyFromPadded(a, t[..i]);
    }
  }

  /** The parser's key of a trimmed line. */
  function TrimmedKey(t: string): Option<string> {
    if t == "" || t[0] == '#' || Colon(t, 0) == |t| then None else Some(ToLower(TrimSpace(t[..Colon(t, 0)])))
  }

  lemma TrimmedKeyIs(t: string)
    requires Trimmed(t)
    ensures TrimmedKey(t) == KeyOf(t)
  {
    if Colon(t, 0) < |t| { ParsedTrimmed(t, Colon(t, 0)); }
  }

  /** It is the key the parser finds. */
  lemma ParsedKey(line: string)
    ensures KeyOfBinding(ParseLine(line)) == KeyOf(line)
  {
    var a, b := TrimParts(line, IsSpace);
    KeyOfPadded(line, a, TrimSpace(line), b);
    TrimmedKeyIs(TrimSpace(line));
  }

  lemma PrefixParts(s: string, a: string, t: string, b: string, i: nat)
    requires s == a + t + b && i <= |t|
    ensures s[..|a| + i] == a + t[..i]
  {
  }

  /** What follows the first ':' does not matter. */
  lemma KeyOfPrefix(x: string, rest: string)
    ensures KeyOf(x + ":" + rest) == KeyOf(x + ":") == KeyFrom(x[..Colon(x, 0)])
  {
    ColonBefore(x, ":" + rest);
    ColonBefore(x, ":");
    assert x + (":" + rest) == x + ":" + rest;
  }

  lemma ColonBefore(x: string, y: string)
    requires y != "" && y[0] == ':'
    ensures Colon(x + y, 0) == Colon(x, 0) && (x + y)[..Colon(x, 0)] == x[..Colon(x, 0)]
  {
    var s, c := x + y, Colon(x, 0);
    assert s[|x|] == ':' && forall k :: 0 <= k < |x| ==> s[k] == x[k];
    ColonIs(s, c);
  }

  // ------------------------------------------------------- the keys of a text

  /** Some line of s declares e. */
  predicate Declares(s: string, e: string)
    decreases |s|
  {
    var n := Newline(s, 0);
    if n == |s| then KeyOf(s) == Some(e) else KeyOf(s[..n]) == Some(e) || Declares(s[n + 1..], e)
  }

  lemma {:induction false} LoadLinesKeys(lines: seq<string>, parse: Parser, m: map<string, string>, e: string)
    ensures e in LoadLines(lines, parse, m) <==> e in m || e in LoadLines(lines, parse, map[])
  {
    if lines != [] {
      LoadLinesKeys(lines[1..], parse, Bind(m, parse(lines[0])), e);
      LoadLinesKeys(lines[1..], parse, Bind(map[], parse(lines[0])), e);
    }
  }

  /** The first line of a text adds its key. */
  lemma LoadFirst(line: string, rest: string, m: map<string, string>, e: string)
    requires '\n' !in line
    ensures e in Load(line + "\n" + rest, m) <==> e in m || KeyOf(line) == Some(e) || e in Load(rest, map[])
  {
    FirstLine(line, rest);
    DropCRHarmless(line);
    ParsedKey(line);
    var ls := FileLines(line + "\n" + rest);
    assert ls[1..] == FileLines(rest);
    LoadLinesKeys(FileLines(rest), ParseLine, Bind(m, ParseLine(line)), e);
  }

  /** A printed line, which may hold newlines, adds all the keys it declares. */
  lemma {:induction false} LoadLine(line: string, rest: string, m: map<string, string>, e: string)
    ensures e in Load(line + "\n" + rest, m) <==> e in m || Declares(line, e) || e in Load(rest, map[])
    decreases |line|
  {
    var n := Newline(line, 0);
    if n == |line| {
      LoadFirst(line, rest, m, e);
    } else {
      var x, y := line[..n], line[n + 1..];
      var z := y + "\n" + rest;
      assert line + "\n" + rest == x + "\n" + z by { Cut(line, x, y, rest); }
      LoadFirst(x, z, m, e);
      LoadLine(y, rest, map[], e);
    }
  }

  lemma Cut(line: string, x: string, y: string, rest: string)
    requires line == x + "\n" + y
    ensures line + "\n" + rest == x + "\n" + (y + "\n" + rest)
  {
  }

  ghost predicate SomeDeclares(lines: seq<string>, e: string) {
    exists i :: 0 <= i < |lines| && Declares(lines[i], e)
  }

  lemma {:induction false} LoadJoinedKeys(lines: seq<string>, e: string)
    ensures e in Load(JoinLines(lines), map[]) <==> SomeDeclares(lines, e)
  {
    if lines != [] {
      LoadLine(lines[0], JoinLines(lines[1..]), map[], e);
      LoadJoinedKeys(lines[1..], e);
      DeclaresSplit(lines, e);
    }
  }

  lemma DeclaresSplit(lines: seq<string>, e: string)
    requires lines != []
    ensures SomeDeclares(lines, e) <==> Declares(lines[0], e) || SomeDeclares(lines[1..], e)
  {
    var rest := lines[1..];
    if SomeDeclares(rest, e) {
      var i :| 0 <= i < |rest| && Declares(rest[i], e);
      assert Declares(lines[i + 1], e);
    }
    if SomeDeclares(lines, e) && !Declares(lines[0], e) {
      var i :| 0 <= i < |lines| && Declares(lines[i], e);
      assert Declares(rest[i - 1], e);
    }
  }

  /** A key line declares what its key followed by ':' declares, whatever the value. */
  lemma {:induction false} PrintedKeyLine(k: string, p: string, e: string)
    requires '\n' !in p
    ensures Declares(k + ":" + p, e) <==> Declares(k + ":", e)
    decreases |k|
  {
    var s, t := k + ":" + p, k + ":";
    var n := Newline(k, 0);
    assert forall i :: 0 <= i < |k| ==> s[i] == k[i] && t[i] == k[i];
    if n == |k| {
      assert '\n' !in s && '\n' !in t;
      KeyOfPrefix(k, p);
    } else {
      assert Newline(s, 0) == n && Newline(t, 0) == n;
      assert s[..n] == t[..n];
      assert s[n + 1..] == k[n + 1..] + ":" + p && t[n + 1..] == k[n + 1..] + ":";
      PrintedKeyLine(k[n + 1..], p, e);
    }
  }

  lemma CommentDeclares(line: string, e: string)
    requires (line == "" || line[0] == '#') && '\n' !in line
    ensures !Declares(line, e)
  {
    CommentIgnored(line);
    ParsedKey(line);
  }

  /** Key k of the map makes the file declare e. */
  predicate Yields(k: string, e: string) { Declares(k + ":", e) }

  lemma KeyLineYields(k: string, v: string, wide: char -> bool, e: string)
    ensures Declares(PrintLine(k, v, wide), e) <==> Yields(k, e)
  {
    ValueHasNoNewline(v, wide);
    var p := " " + PrintValue(v, wide);
    assert PrintLine(k, v, wide) == k + ":" + p;
    PrintedKeyLine(k, p, e);
  }

  /** The keys found in a written file are those its keys yield; no hypothesis on keys or values. */
  lemma WrittenKeys(header: seq<string>, m: map<string, string>, keys: seq<string>, wide: char -> bool, e: string)
    requires CommentLines(header) && Enumerates(keys, m)
    ensures e in Load(Render(header, m, keys, wide), map[]) <==> exists k :: k in m && Yields(k, e)
  {
    var body := KeyLines(m, keys, wide);
    var lines := header + body;
    LoadJoinedKeys(lines, e);
    forall i | 0 <= i < |header| ensures !Declares(lines[i], e) { CommentDeclares(header[i], e); }
    forall i | 0 <= i < |keys| ensures Declares(lines[|header| + i], e) <==> Yields(keys[i], e) {
      KeyLineYields(keys[i], m[keys[i]], wide, e);
    }
    if SomeDeclares(lines, e) {
      var i :| 0 <= i < |lines| && Declares(lines[i], e);
      assert Yields(keys[i - |header|], e);
    }
    if k :| k in m && Yields(k, e) {
      var i :| 0 <= i < |keys| && keys[i] == k;
      assert Declares(lines[|header| + i], e);
    }
  }

  // ------------------------------------------------------------ keys of a load

  lemma LowerKeyOk(k: string)
    requires Trimmed(k) && (k != "" ==> k[0] != '#')
    requires forall i :: 0 <= i < |k| ==> k[i] != ':' && k[i] != '\n'
    ensures KeyOk(ToLower(k))
  {
    ToLowerLowers(k);
  }

  lemma TrimWithin(x: string, i: nat)
    requires i < |TrimSpace(x)|
    ensures TrimSpace(x)[i] in x
  {
    var a, b := TrimParts(x, IsSpace);
    assert TrimSpace(x)[i] == x[|a| + i];
  }

  lemma KeyFromOk(x: string)
    requires ':' !in x && '\n' !in x && KeyFrom(x).Some?
    ensures KeyOk(KeyFrom(x).value)
  {
    var k := TrimSpace(x);
    TrimSpaceTrims(x);
    forall i | 0 <= i < |k| ensures k[i] != ':' && k[i] != '\n' { TrimWithin(x, i); }
    LowerKeyOk(k);
  }

  lemma KeyOfIsOk(line: string)
    requires '\n' !in line && KeyOf(line).Some?
    ensures KeyOk(KeyOf(line).value)
  {
    KeyFromOk(line[..Colon(line, 0)]);
  }

  lemma {:induction false} FileLinesPlain(text: string)
    ensures forall i :: 0 <= i < |FileLines(text)| ==> '\n' !in FileLines(text)[i]
    decreases |text|
  {
    if text != "" {
      var n := Newline(text, 0);
      if n < |text| { FileLinesPlain(text[n + 1..]); }
    }
  }

  lemma {:induction false} LoadLinesOk(lines: seq<string>, m: map<string, string>)
    requires forall i :: 0 <= i < |lines| ==> '\n' !in lines[i]
    requires forall k :: k in m ==> KeyOk(k)
    ensures forall k :: k in LoadLines(lines, ParseLine, m) ==> KeyOk(k)
  {
    if lines != [] {
      ParsedKey(lines[0]);
      if KeyOf(lines[0]).Some? { KeyOfIsOk(lines[0]); }
      LoadLinesOk(lines[1..], Bind(m, ParseLine(lines[0])));
    }
  }

  /** Every map that a load leaves has good keys. */
  lemma LoadedKeysOk(text: string)
    ensures forall k :: k in Load(text, map[]) ==> KeyOk(k)
  {
    FileLinesPlain(text);
    LoadLinesOk(FileLines(text), map[]);
  }

  lemma YieldsKey(k: string, e: string)
    requires '\n' !in k
    ensures Yields(k, e) <==> KeyFrom(k[..Colon(k, 0)]) == Some(e)
  {
    assert '\n' !in k + ":";
    KeyOfPrefix(k, "");
    assert k + ":" + "" == k + ":";
  }

  lemma GoodKeyYields(k: string, e: string)
    requires KeyOk(k)
    ensures Yields(k, e) <==> k == e
  {
    YieldsKey(k, e);
    ColonIs(k, |k|);
    assert k[..|k|] == k;
    TrimSpaceTrims(k);
    ToLowerLowers(k);
  }

  // ---------------------------------------------------- the round trip of all maps

  /** Loading what was written gives the map back if and only if all its keys are good and its values faithful. */
  lemma RoundTripIff(header: seq<string>, m: map<string, string>, keys: seq<string>, wide: char -> bool)
    requires CommentLines(header) && Enumerates(keys, m)
    ensures Load(Render(header, m, keys, wide), map[]) == m <==>
            forall k :: k in m ==> KeyOk(k) && Faithful(m[k], wide)
  {
    LoadedKeysOk(Render(header, m, keys, wide));
    if forall k :: k in m ==> KeyOk(k) {
      ConfigRoundTrip(header, m, keys, wide);
    }
  }

  // ------------------------------------------------------------- the leak

  /** Some key of the map makes the file declare e. */
  ghost predicate SomeYields(m: map<string, string>, e: string) { exists k :: k in m && Yields(k, e) }

  /** Update i passes the check by name, and its key makes the file declare e. */
  predicate Smuggles(updates: seq<(string, string)>, i: int, e: string) {
    0 <= i < |updates| && ToLower(updates[i].0) !in ENV_ONLY && Yields(ToLower(updates[i].0), e)
  }

  lemma MergeYields(m: map<string, string>, updates: seq<(string, string)>, e: string)
    ensures SomeYields(Merge(m, updates, ENV_ONLY), e) <==> SomeYields(m, e) || exists i :: Smuggles(updates, i, e)
  {
    var r := Merge(m, updates, ENV_ONLY);
    if k :| k in r && Yields(k, e) {
      MergeEntries(m, updates, ENV_ONLY, k);
      if k !in m {
        var i :| Sets(updates, i, k);
        assert Smuggles(updates, i, e);
      }
    }
    if k :| k in m && Yields(k, e) {
      MergeEntries(m, updates, ENV_ONLY, k);
    }
    if i :| Smuggles(updates, i, e) {
      assert Sets(updates, i, ToLower(updates[i].0));
      MergeEntries(m, updates, ENV_ONLY, ToLower(updates[i].0));
    }
  }

  /**
   On any map, a write makes the file declare e exactly when a key of the map did already or
   an update that passes the check by name does.
   */
  lemma LeakIff(
    header: seq<string>, m: map<string, string>, updates: seq<(string, string)>, keys: seq<string>,
    wide: char -> bool, e: string)
    requires CommentLines(header) && Enumerates(keys, Merge(m, updates, ENV_ONLY))
    ensures e in Load(Render(header, Merge(m, updates, ENV_ONLY), keys, wide), map[]) <==>
            SomeYields(m, e) || exists i :: Smuggles(updates, i, e)
  {
    WrittenKeys(header, Merge(m, updates, ENV_ONLY), keys, wide, e);
    MergeYields(m, updates, e);
  }

  /** The map after several writes; it is not loaded again in between. */
  function AfterWrites(m: map<string, string>, writes: seq<seq<(string, string)>>): map<string, string> {
    if writes == [] then m else Merge(AfterWrites(m, writes[..|writes| - 1]), writes[|writes| - 1], ENV_ONLY)
  }

  /** Update i of write b does. */
  predicate Carries(writes: seq<seq<(string, string)>>, b: int, i: int, e: string) {
    0 <= b < |writes| && Smuggles(writes[b], i, e)
  }

  lemma {:induction false} WritesYield(m: map<string, string>, writes: seq<seq<(string, string)>>, e: string)
    ensures SomeYields(AfterWrites(m, writes), e) <==> SomeYields(m, e) || exists b, i :: Carries(writes, b, i, e)
  {
    if writes != [] {
      var n := |writes| - 1;
      WritesYield(m, writes[..n], e);
      MergeYields(AfterWrites(m, writes[..n]), writes[n], e);
      assert forall b, i :: Carries(writes[..n], b, i, e) ==> Carries(writes, b, i, e);
      assert forall b, i :: Carries(writes, b, i, e) && b != n ==> Carries(writes[..n], b, i, e);
      assert forall i :: Smuggles(writes[n], i, e) ==> Carries(writes, n, i, e);
      assert forall i :: Carries(writes, n, i, e) ==> Smuggles(writes[n], i, e);
    }
  }

  /**
   From a load on, through any number of writes: the file declares e exactly when the loaded
   file did or some update so far, not env-only by name, carries it in. Once in, it stays.
   */
  lemma LeakSinceLoad(
    header: seq<string>, text: string, writes: seq<seq<(string, string)>>, keys: seq<string>,
    wide: char -> bool, e: string)
    requires CommentLines(header) && Enumerates(keys, AfterWrites(Load(text, map[]), writes))
    ensures e in Load(Render(header, AfterWrites(Load(text, map[]), writes), keys, wide), map[]) <==>
            e in Load(text, map[]) || exists b, i :: Carries(writes, b, i, e)
  {
    var m := Load(text, map[]);
    WrittenKeys(header, AfterWrites(m, writes), keys, wide, e);
    WritesYield(m, writes, e);
    LoadedKeysOk(text);
    forall k | k in m ensures Yields(k, e) <==> k == e { GoodKeyYields(k, e); }
  }

  /** For a lower-case key on one line: cut at its first ':' and trimmed, it is e. */
  lemma YieldsOneLine(k: string, e: string)
    requires '\n' !in k && e != "" && e[0] != '#' && IsLower(k)
    ensures Yields(k, e) <==> TrimSpace(k[..Colon(k, 0)]) == e
  {
    YieldsKey(k, e);
    TrimKeepsLower(k[..Colon(k, 0)]);
    ToLowerLowers(TrimSpace(k[..Colon(k, 0)]));
  }

  lemma PaddedYields(k: string, e: string)
    requires k == " " + e && KeyOk(e) && e != ""
    ensures IsLower(k) && Yields(k, e)
  {
    ColonIs(k, |k|);
    assert k[..|k|] == k;
    assert k == " " + e + "";
    TrimMiddle(" ", e, "", IsSpace);
    YieldsOneLine(k, e);
  }

  /** Every env-only key that is a good key leaks when it is written with a space before it. */
  lemma PaddedKeyLeaks(
    header: seq<string>, k: string, e: string, v: string, keys: seq<string>, wide: char -> bool)
    requires CommentLines(header) && e in ENV_ONLY && KeyOk(e) && e != "" && k == " " + e && k !in ENV_ONLY
    requires Enumerates(keys, Merge(map[], [(k, v)], ENV_ONLY))
    ensures e in Load(Render(header, Merge(map[], [(k, v)], ENV_ONLY), keys, wide), map[])
  {
    PaddedYields(k, e);
    ToLowerLowers(k);
    LeakIff(header, map[], [(k, v)], keys, wide, e);
    assert Smuggles([(k, v)], 0, e);
  }

  lemma AgentTokenOk()
    ensures KeyOk("agent_token") && "agent_token" in ENV_ONLY && " agent_token" !in ENV_ONLY
  {
  }

  /** " agent_token" passes the check by name, and the file then declares agent_token. */
  lemma AgentTokenLeaks(header: seq<string>, v: string, keys: seq<string>, wide: char -> bool)
    requires CommentLines(header) && Enumerates(keys, Merge(map[], [(" agent_token", v)], ENV_ONLY))
    ensures "agent_token" in ENV_ONLY
    ensures "agent_token" in Load(Render(header, Merge(map[], [(" agent_token", v)], ENV_ONLY), keys, wide), map[])
  {
    AgentTokenOk();
    assert " agent_token" == " " + "agent_token";
    PaddedKeyLeaks(header, " agent_token", "agent_token", v, keys, wide);
  }
}
