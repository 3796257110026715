/** A group of uploads and its validation, the gate in front of every write to the groups table. */
module Groups {
  import opened Wrappers
  import opened Text

  datatype Error = NameRequired | NewsgroupRequired | InvalidSource | IdRequired | GroupNotFound | NameTaken

  /** The settings a group carries besides its name. */
  datatype Content = Content(
    kind: string, newsgroups: seq<string>, bans: seq<string>,
    screenshots: Option<int>, sampleSeconds: Option<int>, par2: Option<int>, obfuscate: Option<bool>,
    watermark: string)

  datatype Group = Group(name: string, content: Content, source: string, version: int)

  // ----------------------------------------------------------- validation

  /** Each entry put into normal form, with empty results dropped. */
  function CleanBy(xs: seq<string>, f: string -> string): seq<string> {
    if xs == [] then []
    else
      var rest, x := CleanBy(xs[..|xs| - 1], f), f(xs[|xs| - 1]);
      if x == "" then rest else rest + [x]
  }

  function CleanNames(ngs: seq<string>): seq<string> { CleanBy(ngs, TrimSpace) }

  /** A banned extension in its normal form: lower case, with a leading dot. */
  function Extension(e: string): string {
    var x := TrimSpace(ToLower(e));
    if x == "" || x[0] == '.' then x else "." + x
  }

  function CleanBans(exts: seq<string>): seq<string> { CleanBy(exts, Extension) }

  function Kind(k: string): string {
    var x := TrimSpace(ToLower(k));
    if x == "" then "video" else x
  }

  function Normal(c: Content): Content {
    c.(newsgroups := CleanNames(c.newsgroups), kind := Kind(c.kind), bans := CleanBans(c.bans))
  }

  /** What validateGroup makes of a group. */
  function Validated(g: Group): Result<Group, Error> {
    var name := TrimSpace(g.name);
    if name == "" then Err(NameRequired)
    else if CleanNames(g.content.newsgroups) == [] then Err(NewsgroupRequired)
    else
      var source := if g.source == "" then "local" else g.source;
      if source != "local" && source != "site" then Err(InvalidSource)
      else Ok(Group(name, Normal(g.content), source, g.version))
  }

  method CollectNames(ngs: seq<string>) returns (clean: seq<string>)
    ensures clean == CleanNames(ngs)
  {
    clean := [];
    for i := 0 to |ngs|
      invariant clean == CleanNames(ngs[..i])
    {
      assert ngs[..i + 1][..i] == ngs[..i];
      var ng := TrimSpace(ngs[i]);
      if ng != "" {
        clean := clean + [ng];
      }
    }
    assert ngs[..|ngs|] == ngs;
  }

  method CollectBans(exts: seq<string>) returns (bans: seq<string>)
    ensures bans == CleanBans(exts)
  {
    bans := [];
    for i := 0 to |exts|
      invariant bans == CleanBans(exts[..i])
    {
      assert exts[..i + 1][..i] == exts[..i];
      var ext := TrimSpace(ToLower(exts[i]));
      if ext == "" {
        continue;
      }
      if ext[0] != '.' {
        ext := "." + ext;
      }
      bans := bans + [ext];
    }
    assert exts[..|exts|] == exts;
  }

  /** validateGroup; its two filtering loops are the methods above. */
  method ValidateGroup(g: Group) returns (r: Result<Group, Error>)
    ensures r == Validated(g)
  {
    var name := TrimSpace(g.name);
    if name == "" {
      return Err(NameRequired);
    }
    var clean := CollectNames(g.content.newsgroups);
    if |clean| == 0 {
      return Err(NewsgroupRequired);
    }
    var kind := TrimSpace(ToLower(g.content.kind));
    if kind == "" {
      kind := "video";
    }
    var bans := CollectBans(g.content.bans);
    var source := if g.source == "" then "local" else g.source;
    if source != "local" && source != "site" {
      return Err(InvalidSource);
    }
    r := Ok(Group(name, g.content.(newsgroups := clean, kind := kind, bans := bans), source, g.version));
  }

  // ------------------------------------------------- validation is a normal form

  /** Lower-case and trimmed: a fixed point of both normalisations. */
  ghost predicate Settled(t: string) { ToLower(t) == t && TrimSpace(t) == t }

  lemma Settle(t: string)
    requires IsLower(t) && Trimmed(t)
    ensures Settled(t)
  {
    ToLowerLowers(t);
    TrimSpaceTrims(t);
  }

  lemma LowerTrim(s: string)
    ensures var t := TrimSpace(ToLower(s)); IsLower(t) && Trimmed(t) && Settled(t)
  {
    ToLowerLowers(s);
    TrimKeepsLower(ToLower(s));
    TrimSpaceTrims(ToLower(s));
    Settle(TrimSpace(ToLower(s)));
  }

  lemma DottedSettles(x: string)
    requires x != "" && IsLower(x) && Trimmed(x)
    ensures Settled("." + x)
  {
    var y := "." + x;
    assert y[|y| - 1] == x[|x| - 1];
    Settle(y);
  }

  lemma ExtensionNormal(e: string)
    ensures Extension(Extension(e)) == Extension(e)
  {
    LowerTrim(e);
    var x := TrimSpace(ToLower(e));
    if x != "" { DottedSettles(x); }
  }

  lemma {:induction false} CleanNormal(xs: seq<string>, f: string -> string)
    requires forall x :: f(f(x)) == f(x)
    ensures CleanBy(CleanBy(xs, f), f) == CleanBy(xs, f)
  {
    if xs != [] {
      var rest, x := CleanBy(xs[..|xs| - 1], f), f(xs[|xs| - 1]);
      CleanNormal(xs[..|xs| - 1], f);
      assert (rest + [x])[..|rest|] == rest;
    }
  }

  lemma NamesNormal(ngs: seq<string>)
    ensures CleanNames(CleanNames(ngs)) == CleanNames(ngs)
  {
    forall x ensures TrimSpace(TrimSpace(x)) == TrimSpace(x) {
      TrimSpaceTrims(x);
      TrimSpaceTrims(TrimSpace(x));
    }
    CleanNormal(ngs, TrimSpace);
  }

  lemma BansNormal(exts: seq<string>)
    ensures CleanBans(CleanBans(exts)) == CleanBans(exts)
  {
    forall x ensures Extension(Extension(x)) == Extension(x) { ExtensionNormal(x); }
    CleanNormal(exts, Extension);
  }

  // --------------------------------------------------- what validation keeps

  /** The indices idx grow, and pick out of xs exactly the entries that are not blank. */
  ghost predicate Picks(xs: seq<string>, f: string -> string, idx: seq<nat>) {
    && (forall a, b :: 0 <= a < b < |idx| ==> idx[a] < idx[b])
    && (forall a :: 0 <= a < |idx| ==> idx[a] < |xs| && f(xs[idx[a]]) != "")
    && (forall i :: 0 <= i < |xs| && f(xs[i]) != "" ==> i in idx)
  }

  /** Cleaning keeps every entry that is not blank, in its order and in normal form. */
  lemma {:induction false} CleanKeeps(xs: seq<string>, f: string -> string) returns (idx: seq<nat>)
    ensures Picks(xs, f, idx) && |CleanBy(xs, f)| == |idx|
    ensures forall a :: 0 <= a < |idx| ==> CleanBy(xs, f)[a] == f(xs[idx[a]])
  {
    idx := [];
    if xs != [] {
      var n := |xs| - 1;
      var cut := xs[..n];
      idx := CleanKeeps(cut, f);
      if f(xs[n]) != "" { idx := idx + [n]; }
    }
  }

  /** A ban that is not blank starts with a dot, put before it where it had none; its case does not matter. */
  lemma ExtensionLaw(e: string)
    ensures var t := TrimSpace(ToLower(e));
            && (t == "" ==> Extension(e) == "")
            && (t != "" ==> Extension(e)[..1] == ".")
            && (t != "" ==> Extension(e) == if t[..1] == "." then t else "." + t)
    ensures Extension(ToLower(e)) == Extension(e)
  {
    ToLowerLowers(e);
    ToLowerLowers(ToLower(e));
  }

  /** Which groups pass, why the others do not, and what becomes of the fields. */
  lemma ValidatedIs(g: Group)
    ensures var r, c := Validated(g), g.content;
            if TrimSpace(g.name) == "" then r == Err(NameRequired)
            else if forall i :: 0 <= i < |c.newsgroups| ==> TrimSpace(c.newsgroups[i]) == ""
            then r == Err(NewsgroupRequired)
            else if g.source != "" && g.source != "local" && g.source != "site" then r == Err(InvalidSource)
            else
              && r.Ok? && r.value.name == TrimSpace(g.name) && r.value.version == g.version
              && r.value.source == (if g.source == "site" then "site" else "local")
              && r.value.content == c.(
                   newsgroups := CleanBy(c.newsgroups, TrimSpace), bans := CleanBy(c.bans, Extension),
                   kind := if TrimSpace(ToLower(c.kind)) == "" then "video" else TrimSpace(ToLower(c.kind)))
  {
    var idx := CleanKeeps(g.content.newsgroups, TrimSpace);
    assert idx == [] <==> CleanNames(g.content.newsgroups) == [];
    if idx != [] { assert TrimSpace(g.content.newsgroups[idx[0]]) != ""; }
  }

  lemma KindNormal(k: string)
    ensures Kind(Kind(k)) == Kind(k)
  {
    LowerTrim(k);
    VideoNormal();
  }

  lemma VideoNormal()
    ensures Kind("video") == "video"
  {
    ToLowerLowers("video");
    TrimSpaceTrims("video");
  }

  /** What passed validation passes again, unchanged. */
  lemma ValidationIdempotent(g: Group)
    ensures Validated(g).Ok? ==> Validated(Validated(g).value) == Validated(g)
  {
    TrimSpaceTrims(g.name);
    TrimSpaceTrims(TrimSpace(g.name));
    NamesNormal(g.content.newsgroups);
    BansNormal(g.content.bans);
    KindNormal(g.content.kind);
  }
}
