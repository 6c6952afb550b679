/**
  The dot-directory factory: resolve a well-known base directory for a
  store type, form `base/.target`, and make sure it exists.
*/
module DotStore {
  import opened Paths
  import opened Results
  import opened Fs

  /** The well-known locations a store can be anchored to. */
  datatype StoreType =
    | Home | Config | ConfigLocal | Executable | Audio | Cache | Data
    | DataLocal | Desktop | Download | Document | Font | Picture
    | Preference | Public | Runtime | State | Template | Video

  /** The `dirs` crate lookups, one per location. */
  datatype DirsFn =
    | HomeDir | ConfigDir | ConfigLocalDir | ExecutableDir | AudioDir
    | CacheDir | DataDir | DataLocalDir | DesktopDir | DownloadDir
    | DocumentDir | FontDir | PictureDir | PreferenceDir | PublicDir
    | RuntimeDir | StateDir | TemplateDir | VideoDir

  /**
    What the `dirs` crate answers on the running system for each lookup:
    a base directory, or nothing when the platform or the environment does
    not define one.
  */
  type Dirs = DirsFn -> Option<Path>

  /**
    `StoreType::path`: the lookup that finds a store type's base directory.
    No two store types share a lookup: `ServedBy` recovers the store type.
  */
  function Provider(k: StoreType): (d: DirsFn)
    ensures ServedBy(d) == k
  {
    match k
    case Home => HomeDir
    case Config => ConfigDir
    case ConfigLocal => ConfigLocalDir
    case Executable => ExecutableDir
    case Audio => AudioDir
    case Cache => CacheDir
    case Data => DataDir
    case DataLocal => DataLocalDir
    case Desktop => DesktopDir
    case Download => DownloadDir
    case Document => DocumentDir
    case Font => FontDir
    case Picture => PictureDir
    case Preference => PreferenceDir
    case Public => PublicDir
    case Runtime => RuntimeDir
    case State => StateDir
    case Template => TemplateDir
    case Video => VideoDir
  }

  /** The store type a lookup serves. */
  function ServedBy(d: DirsFn): StoreType {
    match d
    case HomeDir => Home
    case ConfigDir => Config
    case ConfigLocalDir => ConfigLocal
    case ExecutableDir => Executable
    case AudioDir => Audio
    case CacheDir => Cache
    case DataDir => Data
    case DataLocalDir => DataLocal
    case DesktopDir => Desktop
    case DownloadDir => Download
    case DocumentDir => Document
    case FontDir => Font
    case PictureDir => Picture
    case PreferenceDir => Preference
    case PublicDir => Public
    case RuntimeDir => Runtime
    case StateDir => State
    case TemplateDir => Template
    case VideoDir => Video
  }

  /** Every lookup is the provider of the store type it serves. */
  lemma EveryLookupServes(d: DirsFn)
    ensures Provider(ServedBy(d)) == d
  {
  }

  /** Distinct store types never share a lookup. */
  lemma ProviderInjective(a: StoreType, b: StoreType)
    ensures Provider(a) == Provider(b) ==> a == b
  {
  }

  /**
    The store directory: `root.join(format!(".{}", target))`. For a
    relative target this is the root followed by the target's components,
    the first of them hidden behind a `.`.
  */
  function StoreDir(root: Path, target: string): (p: Path)
    ensures p.absolute == root.absolute
    ensures |p.segments| > |root.segments|
    ensures WellFormed(root) ==> WellFormed(p)
    ensures RelativeName(target) ==>
      p.segments == root.segments + DotFirst(Parse(target).segments)
  {
    DottedIsRelative(target);
    Join(root, "." + target)
  }

  /**
    A dotted target is relative and has at least one component; for a
    relative target those are its own components with the first hidden.
  */
  lemma DottedIsRelative(target: string)
    ensures RelativeName("." + target)
    ensures |Parse("." + target).segments| >= 1
    ensures RelativeName(target) ==>
      Parse("." + target).segments == DotFirst(Parse(target).segments)
  {
    SplitDotted(target);
    var pieces := Split("." + target);
    assert pieces[0] != [];
    assert NonEmpty(pieces) == [pieces[0]] + NonEmpty(pieces[1..]);
    if RelativeName(target) {
      DottedTarget(target);
    }
  }

  /**
    The shared tail of `create_store` and `custom_store`: create the store
    directory under `root` and hand it back, or pass the failure on.
  */
  function Materialize(root: Path, target: string, fs: FileSystem, denied: set<Path>)
    : (e: Effect<Option<Path>>)
    ensures var dir := StoreDir(root, target);
      && GrowsAlong(fs, e.after, dir)
      && (e.result.Ok? <==> dir in fs || UnobstructedFrom(fs, denied, dir, 0))
      && (e.result.Ok? ==> e.result.value == Some(dir) && dir in e.after)
      && (e.result.Ok? && dir !in fs ==> ChainIsDirs(e.after, dir, |dir.segments|))
      && (e.result.Err? ==> FailedAt(fs, denied, dir, Effect(Err(e.result.error), e.after)))
      && (dir in fs ==> e.after == fs)
    ensures Valid(fs) ==> Valid(e.after)
  {
    var dir := StoreDir(root, target);
    var made := CreateDir(fs, denied, dir);
    if made.result.Ok? then
      assert dir == Prefix(dir, |dir.segments|);
      Effect(Ok(Some(dir)), made.after)
    else
      Effect(Err(made.result.error), made.after)
  }

  /**
    `custom_store(root_path, target)`: the store directory under a root the
    caller names, created if missing. It never answers `Ok(None)`.
  */
  function CustomStore(rootPath: string, target: string, fs: FileSystem, denied: set<Path>)
    : (e: Effect<Option<Path>>)
    ensures e.result.Ok? ==> e.result.value.Some?
    ensures var dir := StoreDir(Parse(rootPath), target);
      && (e.result.Ok? ==> e.result.value.value == dir && dir in e.after)
      && (e.result.Err? <==> dir !in fs && !UnobstructedFrom(fs, denied, dir, 0))
      && GrowsAlong(fs, e.after, dir)
  {
    Materialize(Parse(rootPath), target, fs, denied)
  }

  /**
    `create_store(store, path)`: with no base directory for the store type
    the answer is `Ok(None)` and nothing is touched; otherwise the store
    directory under the base is created if missing.
  */
  function CreateStore(k: StoreType, target: string, dirs: Dirs, fs: FileSystem, denied: set<Path>)
    : (e: Effect<Option<Path>>)
    ensures dirs(Provider(k)).None? ==> e == Effect(Ok(None), fs)
    ensures dirs(Provider(k)).Some? ==>
      var dir := StoreDir(dirs(Provider(k)).value, target);
      && (e.result.Ok? ==> e.result.value == Some(dir) && dir in e.after)
      && GrowsAlong(fs, e.after, dir)
  {
    match dirs(Provider(k))
    case None => Effect(Ok(None), fs)
    case Some(root) => Materialize(root, target, fs, denied)
  }

  /** The public functions `audio_store` ... `video_store`, one per store type. */
  datatype EntryPoint =
    | AudioStore | CacheStore | ConfigStore | LocalConfigStore | DataStore
    | LocalDataStore | DesktopStore | DocumentStore | DownloadStore
    | ExecutableStore | FontStore | HomeStore | PictureStore
    | PreferenceStore | PublicStore | RuntimeStore | StateStore
    | TemplateStore | VideoStore

  /**
    The store type each public function passes to `create_store`. No two
    public functions pass the same one: `EntryFor` recovers the function.
  */
  function Delegate(f: EntryPoint): (k: StoreType)
    ensures EntryFor(k) == f
  {
    match f
    case AudioStore => Audio
    case CacheStore => Cache
    case ConfigStore => Config
    case LocalConfigStore => ConfigLocal
    case DataStore => Data
    case LocalDataStore => DataLocal
    case DesktopStore => Desktop
    case DocumentStore => Document
    case DownloadStore => Download
    case ExecutableStore => Executable
    case FontStore => Font
    case HomeStore => Home
    case PictureStore => Picture
    case PreferenceStore => Preference
    case PublicStore => Public
    case RuntimeStore => Runtime
    case StateStore => State
    case TemplateStore => Template
    case VideoStore => Video
  }

  /** The public function for a store type. */
  function EntryFor(k: StoreType): EntryPoint {
    match k
    case Audio => AudioStore
    case Cache => CacheStore
    case Config => ConfigStore
    case ConfigLocal => LocalConfigStore
    case Data => DataStore
    case DataLocal => LocalDataStore
    case Desktop => DesktopStore
    case Document => DocumentStore
    case Download => DownloadStore
    case Executable => ExecutableStore
    case Font => FontStore
    case Home => HomeStore
    case Picture => PictureStore
    case Preference => PreferenceStore
    case Public => PublicStore
    case Runtime => RuntimeStore
    case State => StateStore
    case Template => TemplateStore
    case Video => VideoStore
  }

  /** Every store type is reached by a public function, and by one only. */
  lemma EveryStoreTypeHasEntry(k: StoreType)
    ensures Delegate(EntryFor(k)) == k
    ensures forall f :: Delegate(f) == k ==> f == EntryFor(k)
  {
  }

  /**
    Calling a public function, a one-line delegation to `create_store`:
    without a base directory for its store type it answers `Ok(None)` and
    touches nothing; with one, it behaves exactly as `custom_store` on that
    base's spelling.
  */
  function CallEntry(f: EntryPoint, target: string, dirs: Dirs, fs: FileSystem, denied: set<Path>)
    : (e: Effect<Option<Path>>)
    ensures var base := dirs(Provider(Delegate(f)));
      && (base.None? ==> e == Effect(Ok(None), fs))
      && (base.Some? && WellFormed(base.value) ==>
            e == CustomStore(Display(base.value), target, fs, denied))
  {
    var base := dirs(Provider(Delegate(f)));
    if base.Some? && WellFormed(base.value) then
      CreateStoreIsCustomStore(Delegate(f), target, dirs, fs, denied);
      CreateStore(Delegate(f), target, dirs, fs, denied)
    else
      CreateStore(Delegate(f), target, dirs, fs, denied)
  }

  // ---------------------------------------------------------------------
  // Properties of the factory

  /**
    With a resolved base directory, `create_store` behaves exactly as
    `custom_store` given that base spelled as a string: same answer, same
    filesystem afterwards.
  */
  lemma CreateStoreIsCustomStore(k: StoreType, target: string, dirs: Dirs, fs: FileSystem, denied: set<Path>)
    requires dirs(Provider(k)).Some? && WellFormed(dirs(Provider(k)).value)
    ensures CreateStore(k, target, dirs, fs, denied)
         == CustomStore(Display(dirs(Provider(k)).value), target, fs, denied)
  {
    ParseDisplay(dirs(Provider(k)).value);
  }

  /**
    A second `custom_store` call with the same arguments, after a first one
    succeeded, gives the same answer and changes nothing, whatever the
    system would now refuse.
  */
  lemma CustomStoreIdempotent(rootPath: string, target: string, fs: FileSystem,
                              denied: set<Path>, denied': set<Path>)
    requires CustomStore(rootPath, target, fs, denied).result.Ok?
    ensures var first := CustomStore(rootPath, target, fs, denied);
      CustomStore(rootPath, target, first.after, denied') == first
  {
  }

  /** The same for `create_store`, whether or not the base resolves. */
  lemma CreateStoreIdempotent(k: StoreType, target: string, dirs: Dirs, fs: FileSystem,
                              denied: set<Path>, denied': set<Path>)
    requires CreateStore(k, target, dirs, fs, denied).result.Ok?
    ensures var first := CreateStore(k, target, dirs, fs, denied);
      CreateStore(k, target, dirs, first.after, denied') == first
  {
  }

  /**
    Spelled out: for a rooted base with at least one component and a target
    written plainly (no separator at either end, none doubled), a successful
    `custom_store` on the base's spelling answers that spelling, a
    separator, a dot and the target exactly as written.
  */
  lemma CustomStoreSpelling(root: Path, target: string, fs: FileSystem, denied: set<Path>)
    requires WellFormed(root) && |root.segments| >= 1
    requires PlainText(target)
    ensures var e := CustomStore(Display(root), target, fs, denied);
      e.result.Ok? ==> Display(e.result.value.value) == Display(root) + "/." + target
  {
    ParseDisplay(root);
    PlainTextIsPlain(target);
    DisplayJoinDotted(root, target);
  }

  /**
    A file on the way to the store directory makes `custom_store` fail and
    leaves a valid filesystem exactly as it was; only a refusal by the
    system can leave directories behind.
  */
  lemma CustomStoreBlocked(rootPath: string, target: string, fs: FileSystem, denied: set<Path>)
    requires Valid(fs)
    ensures var e := CustomStore(rootPath, target, fs, denied);
      e.result.Err? && !e.result.error.Refused? ==> e.after == fs
  {
    var dir := StoreDir(Parse(rootPath), target);
    var e := CustomStore(rootPath, target, fs, denied);
    if e.result.Err? && !e.result.error.Refused? {
      BlockedLeavesUnchanged(fs, denied, dir);
    }
  }
}
