/** Outcomes of the operations: an optional value and an I/O result. */
module Results {
  import Paths

  datatype Option<+T> = None | Some(value: T)

  /**
    The failures directory creation can report, each with the path where it
    stopped. `Refused` stands for whatever the system answers when it will
    not create a directory (no permission, no space, a read-only mount).
  */
  datatype IoError =
    | NotADirectory(at: Paths.Path)     // a component of the path is a file
    | AlreadyExists(at: Paths.Path)     // the path itself is a file
    | Refused(at: Paths.Path)           // the system would not create `at`

  datatype Result<+T> = Ok(value: T) | Err(error: IoError)
}

/**
  An abstract filesystem: the set of existing entries, each a directory or
  a file, keyed by path. Creating directories is the only change the model
  makes to it. The system's reasons for refusing to create a directory
  (permissions, quotas, read-only mounts) are given as a set `denied` of
  paths it will not create.
*/
module Fs {
  import opened Paths
  import opened Results

  datatype Kind = Dir | File

  type FileSystem = map<Path, Kind>

  /** The outcome of an operation together with the filesystem it leaves. */
  datatype Effect<+T> = Effect(result: Result<T>, after: FileSystem)

  /** The first `n` components of `p`. */
  function Prefix(p: Path, n: nat): Path
    requires n <= |p.segments|
  {
    Path(p.absolute, p.segments[..n])
  }

  predicate IsPrefix(q: Path, p: Path) {
    && q.absolute == p.absolute
    && |q.segments| <= |p.segments|
    && q.segments == p.segments[..|q.segments|]
  }

  predicate IsStrictPrefix(q: Path, p: Path) {
    IsPrefix(q, p) && |q.segments| < |p.segments|
  }

  predicate IsDir(fs: FileSystem, p: Path) {
    p in fs && fs[p] == Dir
  }

  /**
    Every stored entry has at least one component and every proper
    ancestor of it is a stored directory.
  */
  predicate Valid(fs: FileSystem) {
    && (forall q :: q in fs ==> |q.segments| >= 1)
    && (forall q, n :: q in fs && 1 <= n < |q.segments| ==> IsDir(fs, Prefix(q, n)))
  }

  /** The ancestors of `p` with 1 to `n` components are all directories. */
  predicate ChainIsDirs(fs: FileSystem, p: Path, n: nat)
    requires n <= |p.segments|
  {
    forall m :: 1 <= m <= n ==> IsDir(fs, Prefix(p, m))
  }

  /**
    Nothing stands in the way of creating the ancestors of `p` with more
    than `n` components: none of them is a file, and the system does not
    refuse any of the missing ones.
  */
  predicate UnobstructedFrom(fs: FileSystem, denied: set<Path>, p: Path, n: nat)
    requires n <= |p.segments|
  {
    forall m :: n < m <= |p.segments| ==>
      if Prefix(p, m) in fs then fs[Prefix(p, m)] == Dir else Prefix(p, m) !in denied
  }

  /**
    `fs'` is `fs` with some directories added, each one on the ancestor
    chain of `p`: no existing entry is removed or changed.
  */
  predicate GrowsAlong(fs: FileSystem, fs': FileSystem, p: Path) {
    && (forall q :: q in fs ==> q in fs' && fs'[q] == fs[q])
    && (forall q :: q in fs' && q !in fs ==> IsPrefix(q, p) && |q.segments| >= 1 && fs'[q] == Dir)
  }

  /**
    `fs::create_dir_all(p)` from the component with `n + 1` parts down:
    an existing directory is passed through, a file stops the walk, a
    missing one is created unless the system refuses.
  */
  function MkdirFrom(fs: FileSystem, denied: set<Path>, p: Path, n: nat): (e: Effect<()>)
    requires n <= |p.segments|
    requires ChainIsDirs(fs, p, n)
    ensures GrowsAlong(fs, e.after, p)
    ensures e.result.Ok? <==> UnobstructedFrom(fs, denied, p, n)
    ensures e.result.Ok? ==> ChainIsDirs(e.after, p, |p.segments|)
    ensures Valid(fs) ==> Valid(e.after)
    ensures e.result.Err? ==> FailedAt(fs, denied, p, e) && |e.result.error.at.segments| > n
    decreases |p.segments| - n
  {
    if n == |p.segments| then Effect(Ok(()), fs)
    else
      var q := Prefix(p, n + 1);
      UnobstructedStep(fs, denied, p, n);
      if q in fs then
        if fs[q] == Dir then MkdirFrom(fs, denied, p, n + 1)
        else if n + 1 == |p.segments| then Effect(Err(AlreadyExists(q)), fs)
        else Effect(Err(NotADirectory(q)), fs)
      else if q in denied then Effect(Err(Refused(q)), fs)
      else
        AddNextAncestor(fs, p, n);
        var e := MkdirFrom(fs[q := Dir], denied, p, n + 1);
        CreatedStep(fs, denied, p, n, e.after);
        if e.result.Err? then FailedStep(fs, denied, p, n, e); e else e
  }

  /** Clearing the ancestor with `n + 1` components, then the rest. */
  lemma UnobstructedStep(fs: FileSystem, denied: set<Path>, p: Path, n: nat)
    requires n < |p.segments|
    ensures UnobstructedFrom(fs, denied, p, n) <==>
      && (if Prefix(p, n + 1) in fs then fs[Prefix(p, n + 1)] == Dir else Prefix(p, n + 1) !in denied)
      && UnobstructedFrom(fs, denied, p, n + 1)
  {
  }

  /**
    What the walk over `fs` with the next ancestor created promises carries
    over to `fs` itself.
  */
  lemma CreatedStep(fs: FileSystem, denied: set<Path>, p: Path, n: nat, after: FileSystem)
    requires n < |p.segments|
    requires Prefix(p, n + 1) !in fs
    requires GrowsAlong(fs[Prefix(p, n + 1) := Dir], after, p)
    ensures GrowsAlong(fs, after, p)
    ensures UnobstructedFrom(fs[Prefix(p, n + 1) := Dir], denied, p, n + 1)
       <==> UnobstructedFrom(fs, denied, p, n + 1)
  {
    var q := Prefix(p, n + 1);
    forall m | n + 1 < m <= |p.segments|
      ensures Prefix(p, m) != q
    {
      assert |Prefix(p, m).segments| == m;
    }
  }

  /** Adding the next ancestor of `p` as a directory keeps the store valid. */
  lemma AddNextAncestor(fs: FileSystem, p: Path, n: nat)
    requires n < |p.segments|
    requires ChainIsDirs(fs, p, n)
    ensures Valid(fs) ==> Valid(fs[Prefix(p, n + 1) := Dir])
  {
    var q := Prefix(p, n + 1);
    forall k | 1 <= k < |q.segments|
      ensures Prefix(q, k) == Prefix(p, k)
    {
      assert q.segments[..k] == p.segments[..k];
    }
  }

  /**
    Where a failed walk stopped: at an ancestor of `p` that is a file or
    that the system refused to create, with only shorter ancestors created
    before it.
  */
  predicate FailedAt(fs: FileSystem, denied: set<Path>, p: Path, e: Effect<()>)
    requires e.result.Err?
  {
    var at := e.result.error.at;
    && IsPrefix(at, p) && |at.segments| >= 1
    && (forall q :: q in e.after && q !in fs ==> |q.segments| < |at.segments|)
    && match e.result.error
       case Refused(_) => at !in fs && at in denied
       case NotADirectory(_) => at in fs && fs[at] == File && at != p
       case AlreadyExists(_) => at in fs && fs[at] == File && at == p
  }

  /** A failure after creating the next ancestor is a failure seen from `fs`. */
  lemma FailedStep(fs: FileSystem, denied: set<Path>, p: Path, n: nat, e: Effect<()>)
    requires n < |p.segments|
    requires Prefix(p, n + 1) !in fs
    requires e.result.Err? && |e.result.error.at.segments| > n + 1
    requires FailedAt(fs[Prefix(p, n + 1) := Dir], denied, p, e)
    ensures FailedAt(fs, denied, p, e)
  {
  }

  /** `fs::create_dir_all(p)`: `mkdir -p`. */
  function MkdirAll(fs: FileSystem, denied: set<Path>, p: Path): (e: Effect<()>)
    ensures GrowsAlong(fs, e.after, p)
    ensures e.result.Ok? <==> UnobstructedFrom(fs, denied, p, 0)
    ensures e.result.Ok? ==> ChainIsDirs(e.after, p, |p.segments|)
    ensures e.result.Err? ==> FailedAt(fs, denied, p, e)
    ensures Valid(fs) ==> Valid(e.after)
  {
    MkdirFrom(fs, denied, p, 0)
  }

  /**
    The crate's `create_dir`: a path that exists in any form is left
    alone and reported as success; otherwise it is created with every
    missing ancestor.
  */
  function CreateDir(fs: FileSystem, denied: set<Path>, p: Path): (e: Effect<()>)
    ensures p in fs ==> e == Effect(Ok(()), fs)
    ensures GrowsAlong(fs, e.after, p)
    ensures e.result.Ok? <==> p in fs || UnobstructedFrom(fs, denied, p, 0)
    ensures e.result.Ok? && p !in fs ==> ChainIsDirs(e.after, p, |p.segments|)
    ensures e.result.Err? ==> FailedAt(fs, denied, p, e) && !e.result.error.AlreadyExists?
    ensures Valid(fs) ==> Valid(e.after)
  {
    if p in fs then Effect(Ok(()), fs)
    else MkdirAll(fs, denied, p)
  }

  // ---------------------------------------------------------------------
  // Properties of creation

  /**
    Once `create_dir` has succeeded, calling it again on the same path, in
    whatever environment, succeeds and changes nothing.
  */
  lemma CreateDirIdempotent(fs: FileSystem, denied: set<Path>, denied': set<Path>, p: Path)
    requires CreateDir(fs, denied, p).result.Ok?
    ensures var after := CreateDir(fs, denied, p).after;
      CreateDir(after, denied', p) == Effect(Ok(()), after)
  {
    var after := CreateDir(fs, denied, p).after;
    if |p.segments| >= 1 {
      assert p == Prefix(p, |p.segments|);
    }
  }

  /**
    A file in the way of the walk (at an ancestor or at the path itself)
    makes creation fail without creating anything, provided the store was
    valid.
  */
  lemma BlockedLeavesUnchanged(fs: FileSystem, denied: set<Path>, p: Path)
    requires Valid(fs)
    requires MkdirAll(fs, denied, p).result.Err?
    requires !MkdirAll(fs, denied, p).result.error.Refused?
    ensures MkdirAll(fs, denied, p).after == fs
  {
    var e := MkdirAll(fs, denied, p);
    var at := e.result.error.at;
    forall q | q in e.after
      ensures q in fs
    {
      if q !in fs {
        assert IsStrictPrefix(q, at);
        AncestorOfStoredIsDir(fs, q, at);
      }
    }
  }

  /** In a valid store, every ancestor of a stored entry is a directory. */
  lemma AncestorOfStoredIsDir(fs: FileSystem, q: Path, p: Path)
    requires Valid(fs)
    requires p in fs
    requires IsStrictPrefix(q, p) && |q.segments| >= 1
    ensures IsDir(fs, q)
  {
    assert q == Prefix(p, |q.segments|);
  }
}
