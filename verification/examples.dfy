/**
  The worked examples from the crate's documentation, as lemmas. Each
  literal fact is proved in a lemma of its own so that the examples
  themselves only combine them.
*/
module Examples {
  import opened Paths
  import opened Results
  import opened Fs
  import opened DotStore

  /** A single piece without a separator is a plain target. */
  lemma OnePiece(t: string)
    requires t != [] && Sep !in t
    ensures PlainName(t) && Parse(t).segments == [t]
  {
    SplitIntercalate([t]);
  }

  /** Spelling paths of two, three and four components. */
  lemma Spell2(p: Path, a: string, b: string)
    requires p == Path(true, [a, b])
    ensures Display(p) == [Sep] + a + [Sep] + b
  {
    assert [a, b][1..] == [b];
    assert Intercalate([a, b]) == a + [Sep] + b;
  }

  lemma Spell3(p: Path, a: string, b: string, c: string)
    requires p == Path(true, [a, b, c])
    ensures Display(p) == [Sep] + a + [Sep] + b + [Sep] + c
  {
    assert [a, b, c][1..] == [b, c];
    assert [b, c][1..] == [c];
    assert Intercalate([b, c]) == b + [Sep] + c;
    assert Intercalate([a, b, c]) == a + [Sep] + (b + [Sep] + c);
  }

  lemma Spell4(p: Path, a: string, b: string, c: string, d: string)
    requires p == Path(true, [a, b, c, d])
    ensures Display(p) == [Sep] + a + [Sep] + b + [Sep] + c + [Sep] + d
  {
    assert [a, b, c, d][1..] == [b, c, d];
    assert [b, c, d][1..] == [c, d];
    assert [c, d][1..] == [d];
    assert Intercalate([c, d]) == c + [Sep] + d;
    assert Intercalate([b, c, d]) == b + [Sep] + (c + [Sep] + d);
    assert Intercalate([a, b, c, d]) == a + [Sep] + (b + [Sep] + (c + [Sep] + d));
  }

  /** A rooted path of three or four valid components parses back from its spelling. */
  lemma Root3(s: string, p: Path, a: string, b: string, c: string)
    requires ValidSegment(a) && ValidSegment(b) && ValidSegment(c)
    requires p == Path(true, [a, b, c])
    requires s == [Sep] + a + [Sep] + b + [Sep] + c
    ensures Parse(s) == p && Display(Parse(s)) == s && |Parse(s).segments| >= 1
  {
    Spell3(p, a, b, c);
    ParseDisplay(p);
  }

  lemma Root4(s: string, p: Path, a: string, b: string, c: string, d: string)
    requires ValidSegment(a) && ValidSegment(b) && ValidSegment(c) && ValidSegment(d)
    requires p == Path(true, [a, b, c, d])
    requires s == [Sep] + a + [Sep] + b + [Sep] + c + [Sep] + d
    ensures Parse(s) == p && Display(Parse(s)) == s && |Parse(s).segments| >= 1
  {
    Spell4(p, a, b, c, d);
    ParseDisplay(p);
  }

  /** The components used in the examples are valid ones. */
  lemma Valid4(a: string, b: string, c: string, d: string)
    requires a == "home" && b == "user"
    requires c == "project" || c == "workspace"
    requires d == "config" || d == "middle-earth"
    ensures ValidSegment(a) && ValidSegment(b) && ValidSegment(c) && ValidSegment(d)
  {
  }

  lemma HomeUserText(s: string, a: string, b: string)
    requires s == "/home/user" && a == "home" && b == "user"
    ensures s == [Sep] + a + [Sep] + b
  {
  }

  lemma ProjectText(s: string, c: string)
    requires s == "/home/user/project" && c == "project"
    ensures s == "/home/user" + [Sep] + c
  {
  }

  lemma ConfigText(s: string, d: string)
    requires s == "/home/user/project/config" && d == "config"
    ensures s == "/home/user/project" + [Sep] + d
  {
  }

  lemma MiddleEarthText(s: string, c: string, d: string)
    requires s == "/home/user/workspace/middle-earth" && c == "workspace" && d == "middle-earth"
    ensures s == "/home/user" + [Sep] + c + [Sep] + d
  {
  }

  lemma ConfigRoot(s: string, p: Path)
    requires s == "/home/user/project/config"
    requires p == Path(true, ["home", "user", "project", "config"])
    ensures Parse(s) == p && Display(Parse(s)) == s && |Parse(s).segments| >= 1
  {
    HomeUserText("/home/user", "home", "user");
    ProjectText("/home/user/project", "project");
    ConfigText(s, "config");
    Valid4("home", "user", "project", "config");
    Root4(s, p, "home", "user", "project", "config");
  }

  lemma AppTarget(t: string)
    requires t == "app"
    ensures PlainName(t)
  {
    OnePiece(t);
  }

  lemma AppSpelled(root: string, t: string, expected: string)
    requires root == "/home/user/project/config" && t == "app"
    requires expected == "/home/user/project/config/.app"
    ensures expected == root + "/." + t
  {
  }

  /**
    `custom_store("/home/user/project/config", "app")` answers
    `/home/user/project/config/.app` whenever it succeeds: a one-piece
    target is hidden as a whole.
  */
  lemma CustomStoreSinglePiece(fs: FileSystem, denied: set<Path>)
    ensures var e := CustomStore("/home/user/project/config", "app", fs, denied);
      e.result.Ok? ==> Display(e.result.value.value) == "/home/user/project/config/.app"
  {
    ConfigRoot("/home/user/project/config", Path(true, ["home", "user", "project", "config"]));
    AppTarget("app");
    AppSpelled("/home/user/project/config", "app", "/home/user/project/config/.app");
    DisplayJoinDotted(Path(true, ["home", "user", "project", "config"]), "app");
  }

  lemma ProjectRoot(s: string, p: Path)
    requires s == "/home/user/project"
    requires p == Path(true, ["home", "user", "project"])
    ensures Parse(s) == p && Display(Parse(s)) == s && |Parse(s).segments| >= 1
  {
    HomeUserText("/home/user", "home", "user");
    ProjectText(s, "project");
    Valid4("home", "user", "project", "config");
    Root3(s, p, "home", "user", "project");
  }

  lemma NestedTarget(t: string)
    requires t == "settings/user/local"
    ensures RelativeName(t) && Parse(t).segments == ["settings", "user", "local"]
  {
    var pieces := ["settings", "user", "local"];
    assert Intercalate(pieces) == t;
    SplitIntercalate(pieces);
    PlainIsRelative(t);
  }

  lemma NestedPlain(t: string)
    requires t == "settings/user/local"
    ensures PlainName(t)
  {
    var pieces := ["settings", "user", "local"];
    assert Intercalate(pieces) == t;
    SplitIntercalate(pieces);
  }

  lemma NestedDir(root: Path, t: string, dir: Path)
    requires root == Path(true, ["home", "user", "project"])
    requires RelativeName(t) && Parse(t).segments == ["settings", "user", "local"]
    requires dir == Path(true, ["home", "user", "project", ".settings", "user", "local"])
    ensures StoreDir(root, t) == dir
  {
    assert "." + "settings" == ".settings";
    assert DotFirst(Parse(t).segments) == [".settings", "user", "local"];
  }

  lemma NestedPrefixes(dir: Path)
    requires dir == Path(true, ["home", "user", "project", ".settings", "user", "local"])
    ensures Prefix(dir, 4) == Path(true, ["home", "user", "project", ".settings"])
    ensures Prefix(dir, 5) == Path(true, ["home", "user", "project", ".settings", "user"])
  {
  }

  lemma NestedSpelled(root: string, t: string, expected: string)
    requires root == "/home/user/project" && t == "settings/user/local"
    requires expected == "/home/user/project/.settings/user/local"
    ensures expected == root + "/." + t
  {
  }

  /**
    `custom_store("/home/user/project", "settings/user/local")` on a valid
    filesystem with no file in the way and nothing refused: it succeeds,
    answers `/home/user/project/.settings/user/local`, and leaves
    `.settings`, `.settings/user` and `.settings/user/local` as directories.
  */
  lemma CustomStoreNested(fs: FileSystem)
    requires Valid(fs)
    requires forall q :: q in fs ==> fs[q] == Dir
    ensures var e := CustomStore("/home/user/project", "settings/user/local", fs, {});
      && e.result == Ok(Some(Path(true, ["home", "user", "project", ".settings", "user", "local"])))
      && Display(e.result.value.value) == "/home/user/project/.settings/user/local"
      && IsDir(e.after, Path(true, ["home", "user", "project", ".settings"]))
      && IsDir(e.after, Path(true, ["home", "user", "project", ".settings", "user"]))
      && IsDir(e.after, Path(true, ["home", "user", "project", ".settings", "user", "local"]))
  {
    var root := Path(true, ["home", "user", "project"]);
    var dir := Path(true, ["home", "user", "project", ".settings", "user", "local"]);
    ProjectRoot("/home/user/project", root);
    NestedTarget("settings/user/local");
    NestedPlain("settings/user/local");
    NestedDir(root, "settings/user/local", dir);
    NestedPrefixes(dir);
    NestedSpelled("/home/user/project", "settings/user/local", "/home/user/project/.settings/user/local");
    DisplayJoinDotted(root, "settings/user/local");
    var e := CustomStore("/home/user/project", "settings/user/local", fs, {});
    assert UnobstructedFrom(fs, {}, dir, 0);
    assert e.result.Ok?;
    if dir in fs {
      AncestorOfStoredIsDir(fs, Prefix(dir, 4), dir);
      AncestorOfStoredIsDir(fs, Prefix(dir, 5), dir);
    } else {
      assert ChainIsDirs(e.after, dir, 6);
      assert IsDir(e.after, Prefix(dir, 4)) && IsDir(e.after, Prefix(dir, 5));
    }
  }

  lemma HomeRoot(p: Path)
    requires p == Path(true, ["home", "user"])
    ensures Display(p) == "/home/user" && WellFormed(p)
  {
    HomeUserText("/home/user", "home", "user");
    Spell2(p, "home", "user");
  }

  lemma BarracudaSpelled(root: string, t: string, expected: string)
    requires root == "/home/user" && t == "barracuda" && expected == "/home/user/.barracuda"
    ensures expected == root + "/." + t
  {
  }

  lemma BarracudaTarget(t: string)
    requires t == "barracuda"
    ensures PlainName(t)
  {
    OnePiece(t);
  }

  /**
    `home_store("barracuda")` on a system whose home directory is
    `/home/user` answers `/home/user/.barracuda` whenever it succeeds.
  */
  lemma HomeStoreExample(dirs: Dirs, fs: FileSystem, denied: set<Path>)
    requires dirs(HomeDir) == Some(Path(true, ["home", "user"]))
    ensures var e := CallEntry(HomeStore, "barracuda", dirs, fs, denied);
      e.result.Ok? ==> Display(e.result.value.value) == "/home/user/.barracuda"
  {
    var root := Path(true, ["home", "user"]);
    HomeRoot(root);
    BarracudaTarget("barracuda");
    DisplayJoinDotted(root, "barracuda");
    BarracudaSpelled("/home/user", "barracuda", "/home/user/.barracuda");
  }

  lemma EregionDir(root: Path, t: string, dir: Path)
    requires root == Path(true, ["home", "user", "workspace", "middle-earth"])
    requires t == "eregion"
    requires dir == Path(true, ["home", "user", "workspace", "middle-earth", ".eregion"])
    ensures StoreDir(root, t) == dir
  {
    var dotted := "." + t;
    assert root.segments + [dotted] == dir.segments by {
      assert dotted == ".eregion";
    }
    assert StoreDir(root, t) == Path(true, root.segments + [dotted]) by {
      OnePiece(t);
      OnePieceDir(root, t);
    }
  }

  /** A one-piece target adds exactly one hidden component to the root. */
  lemma OnePieceDir(root: Path, t: string)
    requires RelativeName(t) && Parse(t).segments == [t]
    ensures StoreDir(root, t) == Path(root.absolute, root.segments + ["." + t])
  {
  }

  lemma MiddleEarthRoot(s: string, p: Path)
    requires s == "/home/user/workspace/middle-earth"
    requires p == Path(true, ["home", "user", "workspace", "middle-earth"])
    ensures Parse(s) == p && Display(Parse(s)) == s && |Parse(s).segments| >= 1
  {
    HomeUserText("/home/user", "home", "user");
    MiddleEarthText(s, "workspace", "middle-earth");
    Valid4("home", "user", "workspace", "middle-earth");
    Root4(s, p, "home", "user", "workspace", "middle-earth");
  }

  /**
    A file already sitting where the store directory would go counts as
    the store existing: the call succeeds and creates nothing.
  */
  lemma FileAtStorePath(fs: FileSystem, denied: set<Path>)
    requires Path(true, ["home", "user", "workspace", "middle-earth", ".eregion"]) in fs
    ensures CustomStore("/home/user/workspace/middle-earth", "eregion", fs, denied)
         == Effect(Ok(Some(Path(true, ["home", "user", "workspace", "middle-earth", ".eregion"]))), fs)
  {
    var root := Path(true, ["home", "user", "workspace", "middle-earth"]);
    var dir := Path(true, ["home", "user", "workspace", "middle-earth", ".eregion"]);
    MiddleEarthRoot("/home/user/workspace/middle-earth", root);
    EregionDir(root, "eregion", dir);
  }

  lemma EregionSpelled(root: string, t: string, expected: string)
    requires root == "/home/user/workspace/middle-earth" && t == "eregion"
    requires expected == "/home/user/workspace/middle-earth/.eregion"
    ensures expected == root + "/." + t
  {
  }

  /**
    `custom_store("/home/user/workspace/middle-earth", "eregion")` answers
    `/home/user/workspace/middle-earth/.eregion` whenever it succeeds.
  */
  lemma CustomStoreMiddleEarth(rootPath: string, target: string, fs: FileSystem, denied: set<Path>)
    requires rootPath == "/home/user/workspace/middle-earth" && target == "eregion"
    ensures var e := CustomStore(rootPath, target, fs, denied);
      e.result.Ok? ==> Display(e.result.value.value) == "/home/user/workspace/middle-earth/.eregion"
  {
    MiddleEarthFacts(rootPath, target);
    DisplayJoinDotted(Parse(rootPath), target);
  }

  lemma MiddleEarthFacts(rootPath: string, target: string)
    requires rootPath == "/home/user/workspace/middle-earth" && target == "eregion"
    ensures Display(Parse(rootPath)) == rootPath && |Parse(rootPath).segments| >= 1
    ensures PlainName(target)
    ensures rootPath + "/." + target == "/home/user/workspace/middle-earth/.eregion"
  {
    assert Display(Parse(rootPath)) == rootPath && |Parse(rootPath).segments| >= 1 by {
      MiddleEarthRoot(rootPath, Path(true, ["home", "user", "workspace", "middle-earth"]));
    }
    assert PlainName(target) by {
      OnePiece(target);
    }
    EregionSpelled(rootPath, target, "/home/user/workspace/middle-earth/.eregion");
  }
}
