/** Where a dump's files are kept in S3 and where they come back to (pkg/agent/checkpoint.go, pkg/agent/s3.go). */
module Storage {
  import opened Options
  import opened Text
  import MigrationStatus

  predicate IsName(s: string) {
    s != "" && !Contains(s, '/') && s != "." && s != ".."
  }

  predicate Names(s: seq<string>) {
    forall i :: 0 <= i < |s| ==> IsName(s[i])
  }

  predicate SlashFree(s: seq<string>) {
    forall i :: 0 <= i < |s| ==> !Contains(s[i], '/')
  }

  // ---------------------------------------------------------------- Go's path/filepath

  /** The components that filepath.Clean keeps. */
  function Kept(parts: seq<string>, rooted: bool): seq<string> {
    if parts == [] then []
    else
      KeptWith(Kept(parts[..|parts| - 1], rooted), parts[|parts| - 1], rooted)
  }

  function KeptWith(kept: seq<string>, part: string, rooted: bool): seq<string> {
    if part == "" || part == "." then kept
    else if part != ".." then kept + [part]
    else if kept != [] && kept[|kept| - 1] != ".." then kept[..|kept| - 1]
    else if rooted then kept
    else kept + [part]
  }

  predicate Rooted(path: string) {
    "/" <= path
  }

  function Rendered(rooted: bool, parts: seq<string>): string {
    if rooted then "/" + Join(parts, "/") else if parts == [] then "." else Join(parts, "/")
  }

  function Clean(path: string): string {
    Rendered(Rooted(path), Kept(Split(path, "/"), Rooted(path)))
  }

  /** filepath.Join of two elements; empty elements are ignored. */
  function JoinPath(dir: string, rest: string): string {
    if dir == "" && rest == "" then ""
    else if dir == "" then Clean(rest)
    else if rest == "" then Clean(dir)
    else Clean(dir + "/" + rest)
  }

  /** filepath.Base. */
  function Base(path: string): string {
    if path == "" then "." else LastPart(Split(path, "/"))
  }

  function LastPart(parts: seq<string>): string {
    if parts == [] then "/"
    else if parts[|parts| - 1] != "" then parts[|parts| - 1]
    else LastPart(parts[..|parts| - 1])
  }

  function TrimPrefix(s: string, p: string): string {
    if p <= s then s[|p|..] else s
  }

  lemma {:induction false} SplitSlashFree(s: string)
    ensures SlashFree(Split(s, "/"))
  {
    var i := Index(s, "/");
    if i == -1 {
      FindChar(s, '/');
    } else {
      SplitSlashFree(s[i + 1..]);
      if Contains(s[..i], '/') {
        var k :| 0 <= k < i && s[..i][k] == '/';
        assert s[k..k + 1] == "/";
        assert At(s, "/", k);
      }
    }
  }

  lemma SplitJoined(parts: seq<string>)
    requires parts != [] && SlashFree(parts)
    ensures Split(Join(parts, "/"), "/") == parts
  {
    SplittableByChar(parts, '/');
    SplitAfterJoinIff(parts, "/");
  }

  lemma {:induction false} JoinBoth(a: seq<string>, b: seq<string>)
    requires a != [] && b != []
    ensures Join(a + b, "/") == Join(a, "/") + "/" + Join(b, "/")
  {
    if |a| == 1 {
      assert (a + b)[1..] == b;
    } else {
      assert (a + b)[1..] == a[1..] + b;
      JoinBoth(a[1..], b);
    }
  }

  lemma SplitBoth(a: string, b: string)
    ensures Split(a + "/" + b, "/") == Split(a, "/") + Split(b, "/")
  {
    var pa, pb := Split(a, "/"), Split(b, "/");
    JoinAfterSplit(a, "/");
    JoinAfterSplit(b, "/");
    JoinBoth(pa, pb);
    SplitSlashFree(a);
    SplitSlashFree(b);
    assert SlashFree(pa + pb);
    SplitJoined(pa + pb);
  }

  lemma {:induction false} KeptNames(parts: seq<string>, names: seq<string>, rooted: bool)
    requires Names(names)
    ensures Kept(parts + names, rooted) == Kept(parts, rooted) + names
  {
    if names == [] {
      assert parts + names == parts;
    } else {
      var init := names[..|names| - 1];
      assert (parts + names)[..|parts + names| - 1] == parts + init;
      KeptNames(parts, init, rooted);
      assert IsName(names[|names| - 1]);
      assert Kept(parts, rooted) + names == Kept(parts, rooted) + init + [names[|names| - 1]];
    }
  }

  lemma FirstOfJoin(parts: seq<string>)
    requires parts != [] && Names(parts)
    ensures Join(parts, "/") != "" && !Rooted(Join(parts, "/"))
  {
    assert IsName(parts[0]);
    assert parts[0][0] != '/';
    assert Join(parts, "/")[0] == parts[0][0];
  }

  /** Joining names to any directory appends them to what Clean keeps of the directory. */
  lemma JoinPathNames(dir: string, names: seq<string>)
    requires names != [] && Names(names)
    ensures JoinPath(dir, Join(names, "/")) == Rendered(Rooted(dir), Kept(Split(dir, "/"), Rooted(dir)) + names)
  {
    var rest := Join(names, "/");
    FirstOfJoin(names);
    assert forall i :: 0 <= i < |names| ==> IsName(names[i]);
    SplitJoined(names);
    if dir == "" {
      KeptNames([], names, false);
      assert [] + names == names;
      assert Kept(Split("", "/"), false) == [];
    } else {
      SplitBoth(dir, rest);
      KeptNames(Split(dir, "/"), names, Rooted(dir));
    }
  }

  lemma DecimalIntIsName(n: int)
    ensures IsName(DecimalInt(n))
  {
    DecimalSign(n);
    hide DecimalInt;
    assert DecimalInt(n)[0] != '.';
  }

  // ---------------------------------------------------------------- keys

  /** One uploaded file of a dump: who made the dump, and the file's path below the dump directory. */
  datatype Dump = Dump(app: string, generation: int, node: string, id: string)
  datatype Object = Object(dump: Dump, path: seq<string>)

  predicate GoodDump(d: Dump) {
    IsName(d.app) && IsName(d.node) && IsName(d.id)
  }

  predicate Good(o: Object) {
    GoodDump(o.dump) && o.path != [] && Names(o.path)
  }

  /** getS3Prefix, the same path that the operator records in the status. */
  function S3Prefix(d: Dump): string {
    MigrationStatus.Prefix(d.app, d.generation, d.node, d.id)
  }

  /** The key that uploadSingleFile gives a file. */
  function Key(o: Object): string {
    JoinPath(S3Prefix(o.dump), Join(o.path, "/"))
  }

  function Owner(d: Dump): seq<string> {
    [d.app, DecimalInt(d.generation), d.node]
  }

  function Parts(o: Object): seq<string> {
    Owner(o.dump) + ([o.dump.id] + o.path)
  }

  lemma S3PrefixIs(d: Dump)
    ensures S3Prefix(d) == Join(Owner(d) + [d.id], "/")
  {
    var g := DecimalInt(d.generation);
    JoinFour(d.app, g, d.node, d.id);
    assert Owner(d) + [d.id] == [d.app, g, d.node, d.id];
  }

  lemma PartsAreNames(o: Object)
    requires Good(o)
    ensures Names(Parts(o)) && SlashFree(Parts(o)) && Names(Owner(o.dump)) && SlashFree(Owner(o.dump))
  {
    DecimalIntIsName(o.dump.generation);
    hide IsName;
    assert Names(Owner(o.dump)) && Names([o.dump.id] + o.path);
    assert Names(Parts(o));
    NamesAreSlashFree(Parts(o));
    NamesAreSlashFree(Owner(o.dump));
  }

  lemma NamesAreSlashFree(s: seq<string>)
    requires Names(s)
    ensures SlashFree(s)
  {
    forall i | 0 <= i < |s|
      ensures !Contains(s[i], '/')
    {
      assert IsName(s[i]);
    }
  }

  lemma KeptAll(names: seq<string>)
    requires Names(names)
    ensures Kept(names, false) == names
  {
    KeptNames([], names, false);
    assert [] + names == names;
  }

  /** The key is the owner, the dump and the path, joined by slashes. */
  lemma KeyIs(o: Object)
    requires Good(o)
    ensures Key(o) == Join(Parts(o), "/") && Split(Key(o), "/") == Parts(o)
  {
    var front := Owner(o.dump) + [o.dump.id];
    PartsAreNames(o);
    S3PrefixIs(o.dump);
    assert front + o.path == Parts(o);
    assert Names(front) by {
      assert forall i :: 0 <= i < |front| ==> front[i] == Parts(o)[i];
    }
    hide IsName, Owner, Split, Kept, Join;
    NamesAreSlashFree(front);
    SplitJoined(front);
    FirstOfJoin(front);
    KeptAll(front);
    JoinPathNames(S3Prefix(o.dump), o.path);
    SplitJoined(Parts(o));
  }

  /** Different files have different keys. */
  lemma KeysDistinct(o: Object, p: Object)
    requires Good(o) && Good(p) && Key(o) == Key(p)
    ensures o == p
  {
    hide Key, Split, Join, Good, DecimalInt;
    KeyIs(o);
    KeyIs(p);
    var a, b := Parts(o), Parts(p);
    assert a[0] == b[0] && a[1] == b[1] && a[2] == b[2] && a[3] == b[3] && a[4..] == b[4..];
    assert a[4..] == o.path && b[4..] == p.path;
    DecimalIntInjective(o.dump.generation, p.dump.generation);
  }

  // ---------------------------------------------------------------- downloading

  /** The path under which both downloads list: everything up to the dump's own name. */
  function BasePath(s3Prefix: string): string {
    var trimmed := if HasSuffix(s3Prefix, "/") then s3Prefix[..|s3Prefix| - 1] else s3Prefix;
    var parts := Split(trimmed, "/");
    var base := Join(parts[..|parts| - 1], "/");
    if base != "" && !HasSuffix(base, "/") then base + "/" else base
  }

  function LocalPath(base: string, localDir: string, key: string): string {
    JoinPath(localDir, TrimPrefix(TrimPrefix(key, base), "/"))
  }

  lemma {:induction false} JoinEnds(parts: seq<string>)
    requires parts != [] && Names(parts)
    ensures Join(parts, "/") != "" && !HasSuffix(Join(parts, "/"), "/")
  {
    var s := Join(parts, "/");
    assert IsName(parts[0]);
    if |parts| == 1 {
      assert s[|s| - 1] != '/';
    } else {
      JoinEnds(parts[1..]);
      var rest := Join(parts[1..], "/");
      assert s[|s| - 1] == rest[|rest| - 1];
      assert rest[|rest| - 1..] == [rest[|rest| - 1]];
    }
  }

  lemma BasePathOf(s: string, s3Prefix: string)
    requires !HasSuffix(s, "/") && (s3Prefix == s || s3Prefix == s + "/")
    ensures var parts := Split(s, "/"); var base := Join(parts[..|parts| - 1], "/");
            BasePath(s3Prefix) == if base != "" && !HasSuffix(base, "/") then base + "/" else base
  {
    hide Join, Split;
    if s3Prefix != s {
      assert s3Prefix[|s3Prefix| - 1..] == "/" && s3Prefix[..|s3Prefix| - 1] == s;
    }
  }

  /** The base path of a dump's prefix, with or without a trailing slash, is its owner's directory. */
  lemma BasePathIs(d: Dump, s3Prefix: string)
    requires GoodDump(d) && (s3Prefix == S3Prefix(d) || s3Prefix == S3Prefix(d) + "/")
    ensures BasePath(s3Prefix) == Join(Owner(d), "/") + "/"
  {
    var parts := Owner(d) + [d.id];
    DecimalIntIsName(d.generation);
    assert Names(parts) && Names(Owner(d));
    S3PrefixIs(d);
    JoinEnds(parts);
    JoinEnds(Owner(d));
    NamesAreSlashFree(parts);
    SplitJoined(parts);
    assert parts[..3] == Owner(d);
    BasePathOf(S3Prefix(d), s3Prefix);
    hide BasePath, Split, Join, HasSuffix, Names, SlashFree, IsName, DecimalInt, S3Prefix;
  }

  lemma PrefixIff(a: seq<string>, b: seq<string>)
    requires a != [] && |a| < |b| && SlashFree(a) && SlashFree(b)
    ensures Join(a, "/") + "/" <= Join(b, "/") <==> a == b[..|a|]
    ensures a == b[..|a|] ==> TrimPrefix(Join(b, "/"), Join(a, "/") + "/") == Join(b[|a|..], "/")
  {
    var base, key := Join(a, "/") + "/", Join(b, "/");
    hide Join, Split;
    if base <= key {
      var rest := key[|base|..];
      assert key == Join(a, "/") + "/" + rest;
      SplitBoth(Join(a, "/"), rest);
      SplitJoined(a);
      SplitJoined(b);
      assert b == a + Split(rest, "/");
    }
    if a == b[..|a|] {
      assert b == a + b[|a|..];
      JoinBoth(a, b[|a|..]);
      assert key == base + Join(b[|a|..], "/");
    }
  }

  /** A dump's download lists exactly the objects of the same app, generation and node. */
  lemma ListedIff(d: Dump, o: Object)
    requires GoodDump(d) && Good(o)
    ensures BasePath(S3Prefix(d)) <= Key(o) <==>
            d.app == o.dump.app && d.generation == o.dump.generation && d.node == o.dump.node
  {
    BasePathIs(d, S3Prefix(d));
    KeyIs(o);
    PartsAreNames(o);
    PartsAreNames(Object(d, o.path));
    hide Key, BasePath, Join, Split, Names, SlashFree, IsName;
    PrefixIff(Owner(d), Parts(o));
    assert Parts(o)[..3] == Owner(o.dump);
    if Owner(d) == Owner(o.dump) {
      assert Owner(d)[0] == Owner(o.dump)[0] && Owner(d)[1] == Owner(o.dump)[1] && Owner(d)[2] == Owner(o.dump)[2];
      DecimalIntInjective(d.generation, o.dump.generation);
    }
  }

  /** workDir/dumpID/path. */
  function TargetPath(localDir: string, o: Object): string {
    Rendered(Rooted(localDir), Kept(Split(localDir, "/"), Rooted(localDir)) + ([o.dump.id] + o.path))
  }

  /** A listed object comes back below the work directory, under its dump and path. */
  lemma LocalPathIs(d: Dump, o: Object, localDir: string)
    requires GoodDump(d) && Good(o) && Owner(d) == Owner(o.dump)
    ensures LocalPath(BasePath(S3Prefix(d)), localDir, Key(o)) == TargetPath(localDir, o)
  {
    BasePathIs(d, S3Prefix(d));
    KeyIs(o);
    PartsAreNames(o);
    var own := [o.dump.id] + o.path;
    assert Names(own);
    FirstOfJoin(own);
    hide Key, BasePath, Join, Split, Names, SlashFree, IsName, Kept;
    assert Parts(o)[..3] == Owner(d) && Parts(o)[3..] == own;
    PrefixIff(Owner(d), Parts(o));
    JoinPathNames(localDir, own);
  }

  // ---------------------------------------------------------------- the place, for each kind of work directory

  /** What filepath.Clean does to dots: "." goes, ".." takes the name before it along, goes at the root, and stays at
      the front of a relative path. */
  lemma KeptDots(a: seq<string>, x: string, b: seq<string>, rooted: bool)
    requires Names(a) && Names(b) && IsName(x)
    ensures Kept(a + b, rooted) == a + b && Kept(a + ["."] + b, rooted) == a + b
    ensures Kept(a + [x, ".."] + b, rooted) == a + b
    ensures Kept([".."] + b, true) == b && Kept([".."] + b, false) == [".."] + b
  {
    KeptOnly(rooted);
    hide Kept;
    KeptNames([], a, rooted);
    assert [] + a == a;
    KeptNames(a, b, rooted);
    KeptSnoc(a, ".", rooted);
    KeptNames(a + ["."], b, rooted);
    KeptNames(a, [x], rooted);
    KeptSnoc(a + [x], "..", rooted);
    assert a + [x, ".."] == a + [x] + [".."] && (a + [x])[..|a|] == a;
    assert IsName(x);
    KeptNames(a + [x, ".."], b, rooted);
    KeptSnoc([], "..", true);
    KeptSnoc([], "..", false);
    assert [] + [".."] == [".."];
    KeptNames([".."], b, true);
    KeptNames([".."], b, false);
    assert [] + b == b && a + [] + b == a + b;
  }

  lemma KeptOnly(rooted: bool)
    ensures Kept([], rooted) == [] && Kept([], true) == [] && Kept([], false) == []
  {
  }

  lemma KeptSnoc(parts: seq<string>, p: string, rooted: bool)
    ensures Kept(parts + [p], rooted) == KeptWith(Kept(parts, rooted), p, rooted)
  {
    hide KeptWith;
    assert (parts + [p])[..|parts|] == parts;
  }

  /** An absolute directory: the empty part in front of the first slash does not count. */
  lemma AbsoluteKept(parts: seq<string>)
    requires SlashFree(parts)
    ensures Rooted("/" + Join(parts, "/"))
    ensures Kept(Split("/" + Join(parts, "/"), "/"), true) == Kept(parts, true)
  {
    var rest := Join(parts, "/");
    SplitBoth("", rest);
    assert "" + "/" + rest == "/" + rest;
    assert Split("", "/") == [""];
    if parts != [] {
      SplitJoined(parts);
      KeptFront(parts, true);
    } else {
      assert Split(rest, "/") == [""];
      assert ["", ""][..1] == [""] && [""][..0] == [];
    }
  }

  lemma {:induction false} KeptFront(parts: seq<string>, rooted: bool)
    ensures Kept([""] + parts, rooted) == Kept(parts, rooted)
  {
    if parts == [] {
      KeptSnoc([], "", rooted);
      assert [""] + parts == [] + [""];
    } else {
      var init, last := parts[..|parts| - 1], parts[|parts| - 1];
      KeptFront(init, rooted);
      KeptSnoc(init, last, rooted);
      KeptSnoc([""] + init, last, rooted);
      hide Kept;
      assert parts == init + [last] && [""] + parts == [""] + init + [last];
    }
  }

  /** Where a listed object comes back when the work directory is "/" and then `parts`. */
  lemma AbsolutePlace(d: Dump, o: Object, parts: seq<string>, kept: seq<string>)
    requires GoodDump(d) && Good(o) && Owner(d) == Owner(o.dump) && SlashFree(parts) && Kept(parts, true) == kept
    ensures LocalPath(BasePath(S3Prefix(d)), "/" + Join(parts, "/"), Key(o)) ==
            "/" + Join(kept + ([o.dump.id] + o.path), "/")
  {
    hide Join, Split, Kept, Key, BasePath, LocalPath, S3Prefix;
    AbsoluteKept(parts);
    LocalPathIs(d, o, "/" + Join(parts, "/"));
  }

  /** And when it is the relative path `parts`. */
  lemma RelativePlace(d: Dump, o: Object, parts: seq<string>, kept: seq<string>)
    requires GoodDump(d) && Good(o) && Owner(d) == Owner(o.dump) && SlashFree(parts) && Kept(parts, false) == kept
    requires parts != [] && parts[0] != ""
    ensures LocalPath(BasePath(S3Prefix(d)), Join(parts, "/"), Key(o)) == Join(kept + ([o.dump.id] + o.path), "/")
  {
    assert Join(parts, "/")[0] == parts[0][0] && parts[0][0] != '/';
    hide Join, Split, Kept, Key, BasePath, LocalPath, S3Prefix;
    SplitJoined(parts);
    LocalPathIs(d, o, Join(parts, "/"));
  }

  /** The places spelled out: for clean directory names, and for work directories that hold "." or "..". */
  lemma Places(d: Dump, o: Object, a: seq<string>, x: string, b: seq<string>)
    requires GoodDump(d) && Good(o) && Owner(d) == Owner(o.dump) && Names(a) && Names(b) && IsName(x)
    ensures var base, key, file := BasePath(S3Prefix(d)), Key(o), [o.dump.id] + o.path;
            LocalPath(base, "/" + Join(a + b, "/"), key) == "/" + Join(a + b + file, "/") &&
            LocalPath(base, "/" + Join(a + ["."] + b, "/"), key) == "/" + Join(a + b + file, "/") &&
            LocalPath(base, "/" + Join(a + [x, ".."] + b, "/"), key) == "/" + Join(a + b + file, "/") &&
            LocalPath(base, "/" + Join([".."] + b, "/"), key) == "/" + Join(b + file, "/")
    ensures var base, key, file := BasePath(S3Prefix(d)), Key(o), [o.dump.id] + o.path;
            (a + b != [] ==> LocalPath(base, Join(a + b, "/"), key) == Join(a + b + file, "/")) &&
            LocalPath(base, Join(a + ["."] + b, "/"), key) == Join(a + b + file, "/") &&
            LocalPath(base, Join(a + [x, ".."] + b, "/"), key) == Join(a + b + file, "/") &&
            LocalPath(base, Join([".."] + b, "/"), key) == Join([".."] + b + file, "/")
  {
    KeptDots(a, x, b, true);
    KeptDots(a, x, b, false);
    PartsSlashFree(a, x, b);
    hide Join, Kept, Key, BasePath, LocalPath, S3Prefix, SlashFree, Good, GoodDump, Owner;
    AbsolutePlace(d, o, a + b, a + b);
    AbsolutePlace(d, o, a + ["."] + b, a + b);
    AbsolutePlace(d, o, a + [x, ".."] + b, a + b);
    AbsolutePlace(d, o, [".."] + b, b);
    if a + b != [] {
      RelativePlace(d, o, a + b, a + b);
    }
    RelativePlace(d, o, a + ["."] + b, a + b);
    RelativePlace(d, o, a + [x, ".."] + b, a + b);
    RelativePlace(d, o, [".."] + b, [".."] + b);
  }

  lemma PartsSlashFree(a: seq<string>, x: string, b: seq<string>)
    requires Names(a) && Names(b) && IsName(x)
    ensures SlashFree(a + b) && SlashFree(a + ["."] + b) && SlashFree(a + [x, ".."] + b) && SlashFree([".."] + b)
    ensures (a + b != [] ==> (a + b)[0] != "") && (a + ["."] + b)[0] != "" && (a + [x, ".."] + b)[0] != ""
  {
    NamesAreSlashFree(a);
    NamesAreSlashFree(b);
    assert a != [] ==> IsName(a[0]);
    assert b != [] ==> IsName(b[0]);
    hide IsName;
  }

  lemma {:induction false} KeptSlashFree(parts: seq<string>, rooted: bool)
    requires SlashFree(parts)
    ensures SlashFree(Kept(parts, rooted))
  {
    if parts != [] {
      KeptSlashFree(parts[..|parts| - 1], rooted);
    }
  }

  lemma RenderedInjective(rooted: bool, a: seq<string>, b: seq<string>)
    requires a != [] && b != [] && SlashFree(a) && SlashFree(b) && Rendered(rooted, a) == Rendered(rooted, b)
    ensures a == b
  {
    hide Join, Split;
    SplitJoined(a);
    SplitJoined(b);
    if rooted {
      assert Rendered(rooted, a)[1..] == Join(a, "/") && Rendered(rooted, b)[1..] == Join(b, "/");
    }
  }

  /** Two objects of one download never land on the same path, whatever the work directory. */
  lemma LocalPathsDistinct(d: Dump, o: Object, p: Object, localDir: string)
    requires GoodDump(d) && Good(o) && Good(p) && Owner(d) == Owner(o.dump) == Owner(p.dump)
    requires LocalPath(BasePath(S3Prefix(d)), localDir, Key(o)) == LocalPath(BasePath(S3Prefix(d)), localDir, Key(p))
    ensures o == p
  {
    LocalPathIs(d, o, localDir);
    LocalPathIs(d, p, localDir);
    hide LocalPath, BasePath, Key;
    var rooted := Rooted(localDir);
    var kept, a, b := Kept(Split(localDir, "/"), rooted), [o.dump.id] + o.path, [p.dump.id] + p.path;
    SplitSlashFree(localDir);
    KeptSlashFree(Split(localDir, "/"), rooted);
    NamesAreSlashFree(a);
    NamesAreSlashFree(b);
    hide Kept, Split;
    RenderedInjective(rooted, kept + a, kept + b);
    assert (kept + a)[|kept|..] == a && (kept + b)[|kept|..] == b;
    assert a[0] == b[0] && a[1..] == o.path && b[1..] == p.path;
    hide Rendered, IsName, Names;
    OwnersEqual(o.dump, p.dump);
  }

  lemma OwnersEqual(d: Dump, e: Dump)
    requires Owner(d) == Owner(e)
    ensures d.app == e.app && d.generation == e.generation && d.node == e.node
  {
    hide DecimalInt;
    assert Owner(d)[0] == Owner(e)[0] && Owner(d)[1] == Owner(e)[1] && Owner(d)[2] == Owner(e)[2];
    DecimalIntInjective(d.generation, e.generation);
  }

  // ---------------------------------------------------------------- the two downloads

  /** The listing that DownloadFullCheckpoint fetches: every key below the base path. */
  function Listed(bucket: seq<string>, base: string): seq<string> {
    if bucket == [] then []
    else
      var last := bucket[|bucket| - 1];
      Listed(bucket[..|bucket| - 1], base) + if base <= last then [last] else []
  }

  predicate IsPages(key: string) {
    "pages-" <= Base(key)
  }

  method ListFull(bucket: seq<string>, s3Prefix: string) returns (files: seq<string>)
    ensures files == Listed(bucket, BasePath(s3Prefix))
  {
    var base := BasePath(s3Prefix);
    files := [];
    for i := 0 to |bucket|
      invariant files == Listed(bucket[..i], base)
    {
      assert bucket[..i + 1][..i] == bucket[..i];
      if base <= bucket[i] {
        files := files + [bucket[i]];
      }
    }
    assert bucket[..|bucket|] == bucket;
  }

  /** The metadata-only listing: the full one without the page images, in the same order. */
  method ListMetadata(bucket: seq<string>, s3Prefix: string) returns (files: seq<string>)
    ensures files == WithoutPages(Listed(bucket, BasePath(s3Prefix)))
  {
    hide BasePath, IsPages;
    var base := BasePath(s3Prefix);
    files := [];
    for i := 0 to |bucket|
      invariant files == WithoutPages(Listed(bucket[..i], base))
    {
      assert bucket[..i + 1][..i] == bucket[..i];
      ghost var all := Listed(bucket[..i], base);
      assert Listed(bucket[..i + 1], base) == if base <= bucket[i] then all + [bucket[i]] else all;
      if base <= bucket[i] {
        PagesSnoc(all, bucket[i]);
        if !IsPages(bucket[i]) {
          files := files + [bucket[i]];
        }
      }
    }
    assert bucket[..|bucket|] == bucket;
  }

  lemma PagesSnoc(keys: seq<string>, key: string)
    ensures WithoutPages(keys + [key]) == WithoutPages(keys) + if IsPages(key) then [] else [key]
  {
    assert (keys + [key])[..|keys|] == keys;
  }

  function WithoutPages(keys: seq<string>): seq<string> {
    if keys == [] then []
    else
      var last := keys[|keys| - 1];
      WithoutPages(keys[..|keys| - 1]) + if IsPages(last) then [] else [last]
  }

  lemma {:induction false} InListedIff(bucket: seq<string>, base: string, key: string)
    ensures key in Listed(bucket, base) <==> key in bucket && base <= key
  {
    if bucket != [] {
      InListedIff(bucket[..|bucket| - 1], base, key);
      assert bucket == bucket[..|bucket| - 1] + [bucket[|bucket| - 1]];
    }
  }

  lemma {:induction false} InWithoutPagesIff(keys: seq<string>, key: string)
    ensures key in WithoutPages(keys) <==> key in keys && !IsPages(key)
  {
    if keys != [] {
      InWithoutPagesIff(keys[..|keys| - 1], key);
      assert keys == keys[..|keys| - 1] + [keys[|keys| - 1]];
    }
  }

  /** What counts as a page image is the file's own name, wherever it is in the dump. */
  lemma PagesByName(o: Object)
    requires Good(o)
    ensures IsPages(Key(o)) <==> "pages-" <= o.path[|o.path| - 1]
  {
    KeyIs(o);
    PartsAreNames(o);
    FirstOfJoin(Parts(o));
    assert Parts(o)[|Parts(o)| - 1] == o.path[|o.path| - 1];
    assert IsName(o.path[|o.path| - 1]);
  }

  /** Every key of the bucket is an uploaded file of some good dump. */
  ghost predicate AllUploaded(bucket: map<string, string>) {
    forall k :: k in bucket ==> exists o :: Good(o) && Key(o) == k
  }

  ghost predicate Untouched(before: map<string, string>, after: map<string, string>, o: Object) {
    (Key(o) in after <==> Key(o) in before) && (Key(o) in before ==> after[Key(o)] == before[Key(o)])
  }

  /** The file is stored under its key. */
  ghost predicate Placed(after: map<string, string>, d: Dump, p: seq<string>, content: string) {
    Key(Object(d, p)) in after && after[Key(Object(d, p))] == content
  }

  /** The upload of a dump directory; transfers of the `failing` paths break, and the others still run. */
  method UploadFiles(bucket: map<string, string>, d: Dump, paths: seq<seq<string>>, contents: map<seq<string>, string>,
                     failing: set<seq<string>>)
    returns (ok: bool, after: map<string, string>)
    requires GoodDump(d) && forall p :: p in paths ==> p != [] && Names(p) && p in contents
    ensures ok <==> forall p :: p in paths ==> p !in failing
    ensures forall p :: p in paths && p !in failing ==> Placed(after, d, p, contents[p])
    ensures forall o :: Good(o) && !(o.dump == d && o.path in paths && o.path !in failing) ==>
                          Untouched(bucket, after, o)
    ensures AllUploaded(bucket) ==> AllUploaded(after)
  {
    hide Key, IsName, AllUploaded;
    ok, after := true, bucket;
    for i := 0 to |paths|
      invariant ok <==> forall p :: p in paths[..i] ==> p !in failing
      invariant forall p :: p in paths[..i] && p !in failing ==> Placed(after, d, p, contents[p])
      invariant forall o :: Good(o) && !(o.dump == d && o.path in paths[..i] && o.path !in failing) ==>
                              Untouched(bucket, after, o)
      invariant AllUploaded(bucket) ==> AllUploaded(after)
    {
      assert paths[..i + 1] == paths[..i] + [paths[i]] && paths[i] in paths;
      if paths[i] in failing {
        ok := false;
        continue;
      }
      assert Good(Object(d, paths[i]));
      UploadKeeps(after, Object(d, paths[i]), contents[paths[i]]);
      forall p | p in paths[..i]
        ensures Good(Object(d, p))
      {
        assert p in paths;
      }
      after := after[Key(Object(d, paths[i])) := contents[paths[i]]];
    }
    assert paths[..|paths|] == paths;
  }

  /** One upload changes one object. */
  lemma UploadKeeps(bucket: map<string, string>, o: Object, content: string)
    requires Good(o)
    ensures var after := bucket[Key(o) := content];
            (forall p :: Good(p) && p != o ==> Untouched(bucket, after, p)) &&
            (AllUploaded(bucket) ==> AllUploaded(after))
  {
    hide Key, Good;
    forall p | Good(p) && Key(p) == Key(o)
      ensures p == o
    {
      KeysDistinct(p, o);
    }
  }

  ghost predicate NoClash(base: string, localDir: string, files: seq<string>) {
    forall k, l :: k in files && l in files && LocalPath(base, localDir, k) == LocalPath(base, localDir, l) ==> k == l
  }

  /** The downloads, one after the other; when no two share a path, their order does not matter. A `broken` transfer
      leaves no file or a part of one, and the others still run. */
  method DownloadFiles(bucket: map<string, string>, base: string, localDir: string, files: seq<string>,
                       broken: map<string, Option<string>>)
    returns (ok: bool, disk: map<string, string>)
    requires forall k :: k in files ==> k in bucket
    ensures ok <==> forall k :: k in files ==> k !in broken
    ensures forall p :: p in disk ==> exists k :: k in files && LocalPath(base, localDir, k) == p
    ensures NoClash(base, localDir, files) ==>
              forall k :: k in files && k !in broken ==> Fetched(bucket, base, localDir, disk, k)
  {
    hide LocalPath;
    ok, disk := true, map[];
    for i := 0 to |files|
      invariant ok <==> forall k :: k in files[..i] ==> k !in broken
      invariant forall p :: p in disk ==> exists k :: k in files && LocalPath(base, localDir, k) == p
      invariant NoClash(base, localDir, files) ==>
                  forall k :: k in files[..i] && k !in broken ==> Fetched(bucket, base, localDir, disk, k)
    {
      assert files[..i + 1] == files[..i] + [files[i]] && files[i] in files;
      ghost var before := disk;
      var done;
      done, disk := DownloadFile(bucket, LocalPath(base, localDir, files[i]), files[i], broken, disk);
      ok := ok && done;
      if NoClash(base, localDir, files) {
        FetchedStay(bucket, base, localDir, files, i, broken, before, disk);
      }
    }
    assert files[..|files|] == files;
  }

  /** downloadSingleFile: only its own path changes. */
  method DownloadFile(bucket: map<string, string>, path: string, key: string, broken: map<string, Option<string>>,
                      disk: map<string, string>) returns (ok: bool, after: map<string, string>)
    requires key in bucket
    ensures ok <==> key !in broken
    ensures ok ==> after == disk[path := bucket[key]]
    ensures SameElsewhere(disk, after, path)
  {
    if key !in broken {
      return true, disk[path := bucket[key]];
    }
    if broken[key].Some? {
      return false, disk[path := broken[key].value];
    }
    return false, disk;
  }

  ghost predicate SameElsewhere(before: map<string, string>, after: map<string, string>, path: string) {
    forall p :: p != path ==> (p in after <==> p in before) && (p in before ==> after[p] == before[p])
  }

  /** A further download does not disturb the earlier ones. */
  lemma FetchedStay(bucket: map<string, string>, base: string, localDir: string, files: seq<string>, i: nat,
                    broken: map<string, Option<string>>, before: map<string, string>, after: map<string, string>)
    requires i < |files| && NoClash(base, localDir, files) && forall k :: k in files ==> k in bucket
    requires forall k :: k in files[..i] && k !in broken ==> Fetched(bucket, base, localDir, before, k)
    requires var path := LocalPath(base, localDir, files[i]);
             SameElsewhere(before, after, path) && (files[i] !in broken ==> after == before[path := bucket[files[i]]])
    ensures forall k :: k in files[..i + 1] && k !in broken ==> Fetched(bucket, base, localDir, after, k)
  {
    hide LocalPath;
    forall k | k in files[..i + 1] && k !in broken
      ensures Fetched(bucket, base, localDir, after, k)
    {
      assert files[i] in files && k in files;
      if k != files[i] {
        assert k in files[..i];
        assert Fetched(bucket, base, localDir, before, k);
      }
    }
  }

  ghost predicate Fetched(bucket: map<string, string>, base: string, localDir: string, disk: map<string, string>,
                          k: string)
    requires k in bucket
  {
    LocalPath(base, localDir, k) in disk && disk[LocalPath(base, localDir, k)] == bucket[k]
  }

  /** The uploaded files that the download of dump `d` is about: those of its app, generation and node, without
      the page images when only metadata is wanted. */
  ghost predicate Wanted(bucket: map<string, string>, d: Dump, metadataOnly: bool, o: Object) {
    Good(o) && Key(o) in bucket && Owner(o.dump) == Owner(d) && (metadataOnly ==> !("pages-" <= o.path[|o.path| - 1]))
  }

  /** Every wanted file is back in its place with its content, and there is nothing else. */
  ghost predicate Recreated(bucket: map<string, string>, d: Dump, metadataOnly: bool, localDir: string,
                            disk: map<string, string>)
  {
    (forall o :: Wanted(bucket, d, metadataOnly, o) ==>
       TargetPath(localDir, o) in disk && disk[TargetPath(localDir, o)] == bucket[Key(o)]) &&
    (forall p :: p in disk ==> exists o :: Wanted(bucket, d, metadataOnly, o) && TargetPath(localDir, o) == p)
  }

  /** The keys that are downloaded are those of the wanted files. */
  ghost predicate Selects(bucket: map<string, string>, d: Dump, metadataOnly: bool, files: seq<string>) {
    (forall o :: Wanted(bucket, d, metadataOnly, o) ==> Key(o) in files) &&
    (forall k :: k in files ==> exists o :: Wanted(bucket, d, metadataOnly, o) && Key(o) == k)
  }

  lemma SelectsWanted(bucket: map<string, string>, d: Dump, metadataOnly: bool, keys: seq<string>, files: seq<string>)
    requires AllUploaded(bucket) && GoodDump(d) && forall k :: k in keys <==> k in bucket
    requires var all := Listed(keys, BasePath(S3Prefix(d))); files == if metadataOnly then WithoutPages(all) else all
    ensures Selects(bucket, d, metadataOnly, files)
  {
    hide Key, BasePath, Good, IsPages, Owner, S3Prefix;
    var base := BasePath(S3Prefix(d));
    forall o | Good(o) && Key(o) in bucket
      ensures Key(o) in files <==> Wanted(bucket, d, metadataOnly, o)
    {
      InListedIff(keys, base, Key(o));
      InWithoutPagesIff(Listed(keys, base), Key(o));
      ListedIff(d, o);
      SameOwner(d, o.dump);
      PagesByName(o);
    }
    forall k | k in files
      ensures k in bucket
    {
      InListedIff(keys, base, k);
      InWithoutPagesIff(Listed(keys, base), k);
    }
  }

  lemma SameOwner(d: Dump, e: Dump)
    ensures Owner(d) == Owner(e) <==> d.app == e.app && d.generation == e.generation && d.node == e.node
  {
    if Owner(d) == Owner(e) {
      OwnersEqual(d, e);
    }
  }

  lemma FilesRecreated(bucket: map<string, string>, d: Dump, metadataOnly: bool, localDir: string, files: seq<string>,
                       disk: map<string, string>)
    requires GoodDump(d) && Selects(bucket, d, metadataOnly, files) && forall k :: k in files ==> k in bucket
    requires var base := BasePath(S3Prefix(d));
             (forall p :: p in disk ==> exists k :: k in files && LocalPath(base, localDir, k) == p) &&
             (NoClash(base, localDir, files) ==> forall k :: k in files ==> Fetched(bucket, base, localDir, disk, k))
    ensures Recreated(bucket, d, metadataOnly, localDir, disk)
  {
    hide Key, BasePath, Good, Owner, S3Prefix, LocalPath, TargetPath;
    var base := BasePath(S3Prefix(d));
    forall o | Wanted(bucket, d, metadataOnly, o)
      ensures LocalPath(base, localDir, Key(o)) == TargetPath(localDir, o)
    {
      LocalPathIs(d, o, localDir);
    }
    forall k, l | k in files && l in files && LocalPath(base, localDir, k) == LocalPath(base, localDir, l)
      ensures k == l
    {
      var o :| Wanted(bucket, d, metadataOnly, o) && Key(o) == k;
      var p :| Wanted(bucket, d, metadataOnly, p) && Key(p) == l;
      LocalPathsDistinct(d, o, p, localDir);
    }
    assert NoClash(base, localDir, files);
    forall o | Wanted(bucket, d, metadataOnly, o)
      ensures TargetPath(localDir, o) in disk && disk[TargetPath(localDir, o)] == bucket[Key(o)]
    {
      assert Fetched(bucket, base, localDir, disk, Key(o));
    }
    forall p | p in disk
      ensures exists o :: Wanted(bucket, d, metadataOnly, o) && TargetPath(localDir, o) == p
    {
      var k :| k in files && LocalPath(base, localDir, k) == p;
      var o :| Wanted(bucket, d, metadataOnly, o) && Key(o) == k;
    }
  }

  /** The keys of the bucket, in whatever order it lists them. */
  method ListKeys(bucket: map<string, string>) returns (keys: seq<string>)
    ensures forall k :: k in keys <==> k in bucket
  {
    keys := [];
    var rest := bucket.Keys;
    while rest != {}
      invariant rest <= bucket.Keys && forall k :: k in keys <==> k in bucket && k !in rest
      decreases rest
    {
      var k :| k in rest;
      rest := rest - {k};
      keys := keys + [k];
    }
  }

  /** DownloadFullCheckpoint: when no transfer breaks, every file of the dump's app, generation and node is back. */
  method DownloadFullCheckpoint(bucket: map<string, string>, s3Prefix: string, localDir: string,
                                broken: map<string, Option<string>>)
    returns (ok: bool, disk: map<string, string>)
    ensures (forall k :: k in bucket && BasePath(s3Prefix) <= k ==> k !in broken) ==> ok
    ensures ok ==> forall d :: AllUploaded(bucket) && GoodDump(d) && S3Prefix(d) == s3Prefix ==>
                                 Recreated(bucket, d, false, localDir, disk)
    ensures ok ==> forall d, dirs :: (AllUploaded(bucket) && GoodDump(d) && S3Prefix(d) == s3Prefix && Names(dirs) &&
                                      localDir == "/" + Join(dirs, "/")) ==> RecreatedAt(bucket, d, false, dirs, disk)
  {
    hide BasePath, LocalPath, S3Prefix, Listed, Recreated, AllUploaded, NoClash, Fetched, RecreatedAt, Names;
    var keys := ListKeys(bucket);
    var files := ListFull(keys, s3Prefix);
    forall k | k in files
      ensures k in bucket && BasePath(s3Prefix) <= k
    {
      InListedIff(keys, BasePath(s3Prefix), k);
    }
    ok, disk := DownloadFiles(bucket, BasePath(s3Prefix), localDir, files, broken);
    forall d | ok && AllUploaded(bucket) && GoodDump(d) && S3Prefix(d) == s3Prefix
      ensures Recreated(bucket, d, false, localDir, disk)
    {
      SelectsWanted(bucket, d, false, keys, files);
      FilesRecreated(bucket, d, false, localDir, files, disk);
    }
    forall d, dirs | ok && AllUploaded(bucket) && GoodDump(d) && S3Prefix(d) == s3Prefix && Names(dirs) &&
                     localDir == "/" + Join(dirs, "/")
      ensures RecreatedAt(bucket, d, false, dirs, disk)
    {
      PlacedAt(bucket, d, false, dirs, disk);
    }
  }

  /** The file's place below the absolute directory with these names. */
  function Below(dirs: seq<string>, o: Object): string {
    "/" + Join(dirs + [o.dump.id] + o.path, "/")
  }

  /** Every wanted file is there, and there is nothing else. */
  ghost predicate RecreatedAt(bucket: map<string, string>, d: Dump, metadataOnly: bool, dirs: seq<string>,
                              disk: map<string, string>)
  {
    (forall o :: Wanted(bucket, d, metadataOnly, o) ==>
       Below(dirs, o) in disk && disk[Below(dirs, o)] == bucket[Key(o)]) &&
    (forall p :: p in disk ==> exists o :: Wanted(bucket, d, metadataOnly, o) && Below(dirs, o) == p)
  }

  lemma PlacedAt(bucket: map<string, string>, d: Dump, metadataOnly: bool, dirs: seq<string>, disk: map<string, string>)
    requires GoodDump(d) && Names(dirs) && Recreated(bucket, d, metadataOnly, "/" + Join(dirs, "/"), disk)
    ensures RecreatedAt(bucket, d, metadataOnly, dirs, disk)
  {
    hide Key, Good, Owner, Join, TargetPath, Below, GoodDump, Names;
    var localDir := "/" + Join(dirs, "/");
    forall o
      ensures TargetPath(localDir, o) == Below(dirs, o)
    {
      AbsoluteTarget(dirs, o);
    }
    forall o | Wanted(bucket, d, metadataOnly, o)
      ensures Below(dirs, o) in disk && disk[Below(dirs, o)] == bucket[Key(o)]
    {
      assert TargetPath(localDir, o) in disk;
    }
    forall p | p in disk
      ensures exists o :: Wanted(bucket, d, metadataOnly, o) && Below(dirs, o) == p
    {
      var o :| Wanted(bucket, d, metadataOnly, o) && TargetPath(localDir, o) == p;
      assert Below(dirs, o) == p;
    }
  }

  lemma AbsoluteTarget(dirs: seq<string>, o: Object)
    requires Names(dirs)
    ensures TargetPath("/" + Join(dirs, "/"), o) == Below(dirs, o)
  {
    hide Kept, Split, Join, IsName, SlashFree, Contains, Rooted;
    NamesAreSlashFree(dirs);
    AbsoluteKept(dirs);
    KeptOnly(true);
    KeptNames([], dirs, true);
    assert [] + dirs == dirs;
    assert dirs + ([o.dump.id] + o.path) == dirs + [o.dump.id] + o.path;
  }

  /** DownloadMetadataOnly: the same without the page images. */
  method DownloadMetadataOnly(bucket: map<string, string>, s3Prefix: string, localDir: string,
                              broken: map<string, Option<string>>)
    returns (ok: bool, disk: map<string, string>)
    ensures (forall k :: k in bucket && BasePath(s3Prefix) <= k && !IsPages(k) ==> k !in broken) ==> ok
    ensures ok ==> forall d :: AllUploaded(bucket) && GoodDump(d) && S3Prefix(d) == s3Prefix ==>
                                 Recreated(bucket, d, true, localDir, disk)
    ensures ok ==> forall d, dirs :: (AllUploaded(bucket) && GoodDump(d) && S3Prefix(d) == s3Prefix && Names(dirs) &&
                                      localDir == "/" + Join(dirs, "/")) ==> RecreatedAt(bucket, d, true, dirs, disk)
  {
    hide BasePath, LocalPath, S3Prefix, Listed, Recreated, AllUploaded, WithoutPages, NoClash, Fetched, IsPages;
    hide RecreatedAt, Names;
    var keys := ListKeys(bucket);
    var files := ListMetadata(keys, s3Prefix);
    forall k | k in files
      ensures k in bucket && BasePath(s3Prefix) <= k && !IsPages(k)
    {
      InListedIff(keys, BasePath(s3Prefix), k);
      InWithoutPagesIff(Listed(keys, BasePath(s3Prefix)), k);
    }
    ok, disk := DownloadFiles(bucket, BasePath(s3Prefix), localDir, files, broken);
    forall d | ok && AllUploaded(bucket) && GoodDump(d) && S3Prefix(d) == s3Prefix
      ensures Recreated(bucket, d, true, localDir, disk)
    {
      SelectsWanted(bucket, d, true, keys, files);
      FilesRecreated(bucket, d, true, localDir, files, disk);
    }
    forall d, dirs | ok && AllUploaded(bucket) && GoodDump(d) && S3Prefix(d) == s3Prefix && Names(dirs) &&
                     localDir == "/" + Join(dirs, "/")
      ensures RecreatedAt(bucket, d, true, dirs, disk)
    {
      PlacedAt(bucket, d, true, dirs, disk);
    }
  }

  /** The round trip: a dump directory that was uploaded without error and downloaded without error is back, file by
      file, below workDir/dumpID. */
  method UploadThenDownload(bucket: map<string, string>, d: Dump, paths: seq<seq<string>>,
                            contents: map<seq<string>, string>, failing: set<seq<string>>, localDir: string,
                            broken: map<string, Option<string>>)
    returns (ok: bool, disk: map<string, string>)
    requires GoodDump(d) && AllUploaded(bucket) && forall p :: p in paths ==> p != [] && Names(p) && p in contents
    ensures failing == {} && broken == map[] ==> ok
    ensures ok ==> forall p :: p in paths ==>
                     var path := TargetPath(localDir, Object(d, p)); path in disk && disk[path] == contents[p]
    ensures ok ==> forall dirs, p :: Names(dirs) && localDir == "/" + Join(dirs, "/") && p in paths ==>
                     var path := "/" + Join(dirs + [d.id] + p, "/"); path in disk && disk[path] == contents[p]
  {
    hide BasePath, TargetPath, S3Prefix, Names, GoodDump, AllUploaded, Key;
    var uploaded, after := UploadFiles(bucket, d, paths, contents, failing);
    ok, disk := DownloadFullCheckpoint(after, S3Prefix(d), localDir, broken);
    ok := ok && uploaded;
    if ok {
      forall p | p in paths
        ensures TargetPath(localDir, Object(d, p)) in disk && disk[TargetPath(localDir, Object(d, p))] == contents[p]
      {
        assert Placed(after, d, p, contents[p]);
        assert Wanted(after, d, false, Object(d, p));
      }
      forall dirs, p | Names(dirs) && localDir == "/" + Join(dirs, "/") && p in paths
        ensures TargetPath(localDir, Object(d, p)) == "/" + Join(dirs + [d.id] + p, "/")
      {
        AbsoluteTarget(dirs, Object(d, p));
        assert Below(dirs, Object(d, p)) == "/" + Join(dirs + [d.id] + p, "/");
      }
    }
  }
}
