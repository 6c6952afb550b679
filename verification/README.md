# dotstore, modelled in Dafny

`dotstore` is a small Rust library that creates "dot directories" such as
`/home/user/.barracuda` or `/home/user/.config/.editor`. It picks a
well-known base directory for one of nineteen store types (home, config,
cache, ...), asks the `dirs` crate where that directory lives on the
running system, puts a `.` in front of the caller's target name, joins the
two, and makes sure the result exists. `custom_store` does the same under a
root the caller names.

This project models that factory as pure functions over immutable values:

- `paths.dfy` (module `Paths`): a path is a rooted flag plus a list of
  components. It defines parsing a string into components, the canonical
  spelling of a path, `join`, and the dot-prefix rule.
- `fs.dfy` (modules `Results` and `Fs`): the filesystem is a map from path to
  `Dir` or `File`. `create_dir_all` (`mkdir -p`) and the crate's own
  `create_dir` are transitions on that map. Each returns an `Effect`: the
  `io::Result` together with the filesystem left afterwards.
- `dotstore.dfy` (module `DotStore`): the `StoreType` enumeration and its
  one lookup per variant, `create_store`, `custom_store`, and the nineteen
  public `*_store` functions, each of which delegates to `create_store`.
- `examples.dfy` (module `Examples`): the worked examples from the crate's
  documentation, proved as lemmas.

The `dirs` crate is an uninterpreted parameter `dirs: DirsFn -> Option<Path>`.
The operating system's reasons for refusing to create a directory
(permissions, quotas, read-only mounts) are a parameter
`denied: set<Path>`: the paths it will not create. Such a refusal is
reported as the single error `Refused`.

When the platform has no base directory for a store type, the code answers
`Ok(None)`, not an error, so callers must handle `Ok(None)`.

A file already sitting at the store path counts as the store existing,
because `Path::exists` is true for files: the call answers `Ok` with the
path and creates nothing (`Examples.FileAtStorePath`).

## Model

| member | source | states |
|---|---|---|
| Paths.Display | src/lib.rs:94 | the canonical spelling: a rooted path's spelling begins with `/`; for a well-formed path it begins with `/` exactly when the path is rooted, and is empty only for the empty relative path |
| Paths.Join | src/lib.rs:94 | `PathBuf::join`: a relative argument keeps the base's rootedness and extends the base, which stays a prefix of the result; a rooted argument replaces the base. Well-formedness is preserved |
| Paths.Parse | src/lib.rs:223 | `PathBuf::from`: every component of the parsed path is non-empty and free of separators, and the path is rooted exactly when the string starts with `/` |
| Paths.SplitIntercalate | src/lib.rs:223 | splitting a string on `/` is inverse to gluing separator-free pieces with `/` |
| Paths.ParseDisplay | src/lib.rs:223 | parsing the displayed form of a well-formed path gives the same path back, so a base directory survives being passed as a string |
| Paths.SplitDotted | src/lib.rs:224 | putting `.` in front of a target changes only its first piece, which gains the dot; every later piece is unchanged |
| Paths.DottedTarget | src/lib.rs:224 | for a relative target, `"." + target` parses to the target's own components with only the first one hidden |
| Paths.DisplayJoinDotted | src/lib.rs:224 | a base joined with `"." + target` is spelled as the base, `/.` and the target exactly as the caller wrote it |
| Paths.PlainTextIsPlain | src/lib.rs:224 | a target with no separator at either end and none doubled splits into non-empty pieces only, so none of its components is dropped |
| Fs.MkdirFrom | src/lib.rs:85 | `create_dir_all` from a given depth down. It succeeds exactly when no ancestor is a file and no missing one is refused. On success every ancestor is a directory. Only directories on the chain are added, and nothing existing changes. A failure names the ancestor where it stopped and why. Validity is preserved |
| Fs.MkdirAll | src/lib.rs:85 | `mkdir -p` on the whole path, with the same success condition, ancestor closure, frame condition and failure characterisation |
| Fs.CreateDir | src/lib.rs:83-89 | an existing path of either kind gives `Ok(())` and an unchanged filesystem. Otherwise it behaves as `mkdir -p`, and a failure is never "already exists" |
| Fs.CreateDirIdempotent | src/lib.rs:84-88 | after a successful `create_dir`, a second call on the same path succeeds and changes nothing, whatever the system would now refuse |
| Fs.BlockedLeavesUnchanged | src/lib.rs:85 | when a file is in the way, `mkdir -p` fails on a valid filesystem without creating anything |
| DotStore.Provider | src/lib.rs:58-80 | `StoreType::path`: one `dirs` lookup per store type, arm by arm, and no two store types share a lookup (`ServedBy` recovers the store type) |
| DotStore.EveryLookupServes | src/lib.rs:58-80 | every one of the nineteen `dirs` lookups is the provider of some store type |
| DotStore.StoreDir | src/lib.rs:94 | the store directory has the root's rootedness and is strictly deeper than the root. For a relative target it is the root's components followed by the target's, with only the first hidden |
| DotStore.DottedIsRelative | src/lib.rs:224 | `"." + target` never replaces the root: it is relative and has at least one component |
| DotStore.Materialize | src/lib.rs:94-97 | after the store directory is created: success happens exactly when it exists already or nothing obstructs it. Success answers `Some(dir)` with `dir` present. A failure is propagated with no path returned. An existing `dir` leaves the filesystem unchanged |
| DotStore.CustomStore | src/lib.rs:219-228 | `custom_store` never answers `Ok(None)`. On success it answers the store directory under the parsed root. It fails exactly when the directory is missing and obstructed. Only the directory's ancestor chain is added |
| DotStore.CreateStore | src/lib.rs:91-101 | with no base directory the answer is `Ok(None)` and the filesystem is untouched. With a base, success answers `Some(dir)` under that base, and only `dir`'s ancestor chain is added |
| DotStore.Delegate | src/lib.rs:103-196 | the store type each public function passes to `create_store`; no two public functions pass the same one (`EntryFor` recovers the function) |
| DotStore.EveryStoreTypeHasEntry | src/lib.rs:103-196 | every store type is reached by exactly one of the nineteen public functions |
| DotStore.CallEntry | src/lib.rs:103-196 | a public function answers `Ok(None)` and touches nothing when its store type has no base directory; otherwise it behaves exactly as `custom_store` on the spelling of that base |
| DotStore.CreateStoreIsCustomStore | src/lib.rs:93-97 | with a resolved base, `create_store` equals `custom_store` on that base's spelling, in both answer and final filesystem |
| DotStore.CustomStoreIdempotent | src/lib.rs:223-227 | a second `custom_store` with the same arguments after a success gives the same answer and changes nothing |
| DotStore.CreateStoreIdempotent | src/lib.rs:91-101 | the same for `create_store`, whether or not the base resolves |
| DotStore.CustomStoreSpelling | src/lib.rs:224-227 | for a base written in its canonical spelling and a target with no separator at either end and none doubled, a success answers the base's spelling followed by `/.` and the target exactly as written |
| DotStore.CustomStoreBlocked | src/lib.rs:225 | on a valid filesystem, a `custom_store` failure that is not a refusal by the system (a file in the way) leaves the filesystem exactly as it was |
| Examples.CustomStoreSinglePiece | src/lib.rs:212-213 | `custom_store("/home/user/project/config", "app")` answers `/home/user/project/config/.app` |
| Examples.CustomStoreNested | src/lib.rs:215-216 | `custom_store("/home/user/project", "settings/user/local")` succeeds on a directory-only filesystem with nothing refused. It answers `/home/user/project/.settings/user/local` and leaves `.settings`, `.settings/user` and `.settings/user/local` as directories |
| Examples.HomeStoreExample | src/lib.rs:14-16 | `home_store("barracuda")` with home `/home/user` answers `/home/user/.barracuda` |
| Examples.CustomStoreMiddleEarth | src/lib.rs:21-22 | `custom_store("/home/user/workspace/middle-earth", "eregion")` answers `/home/user/workspace/middle-earth/.eregion` |
| Examples.FileAtStorePath | src/lib.rs:84 | a file already at `.eregion` counts as the store existing: success with the path, and nothing created |

## Left out

- The `dirs` crate's lookups (XDG base directories, Windows known folders, macOS domains) are foreign calls. They are the uninterpreted parameter `dirs`.
- The concrete reasons `create_dir_all` fails (permissions, quotas, read-only mounts) are not modelled. They appear only as the set `denied` of paths the system refuses to create.
- Symbolic links, and `Path::exists` answering `false` when the status query itself fails, are not modelled: an entry exists exactly when it is in the map.
- Races between concurrent callers are left out, because the model is sequential. Rust's `create_dir_all` tolerates a directory appearing concurrently; with no other actor, that case never arises here.
- `create_dir_all` in Rust works bottom-up: it tries the path, and on "not found" recurses on the parent. The model walks top-down over the ancestors. Both yield the same success condition and final filesystem.
- Rust's `io::Error` does not record the path it failed on. The model's `IoError` does record the ancestor where the walk stopped, so the failure can be stated.
- Every refusal by the system is the one error `Refused`. Rust reports distinct kinds for these (permission denied, storage full, read-only filesystem, ...).
- `Path::display`'s lossy UTF-8 conversion, Windows drive prefixes, `\` separators and byte-level `OsStr` handling are left out: strings are sequences of characters, and `/` is the only separator.
- `.` components are not normalised. Rust's `Path::components` keeps a leading `.` on a relative path and drops every interior or trailing one. The model keeps every `.` piece as an ordinary component, in roots and targets alike. So `custom_store("/a/./b", "x")` in the model stands for a path under a directory literally named `.`: the model creates `/a/.`, while the program finds `/a/b/.x`. The same holds for targets such as `a/./b`, and for an empty target or one beginning with `/`.
- There is no working directory. A relative path and an absolute spelling of the same directory are distinct keys of the filesystem map. So `custom_store("p", "x")` creates `p` and `p/.x` as relative entries, even when the directory they stand for already exists under its absolute spelling.
- `..` components are kept as ordinary components, as Rust's `Path` does. Resolving them is the operating system's business.
- The public `*_store` functions are modelled as one `EntryPoint` value each and their delegation to `create_store` (`DotStore.Delegate`, `DotStore.CallEntry`). Their doc comments are not modelled. Those comments point `preference_store` at `dirs::picture_dir` and `state_store` at `dirs::runtime_dir`, whereas the code uses `preference_dir` and `state_dir`. The model follows the code.
- DotStore.CustomStore: its contract does not repeat the failure characterisation (`FailedAt`) that `DotStore.Materialize` states; `CustomStore` is `Materialize` on the parsed root, and the fuller statement is on `Materialize`.
- DotStore.CreateStore: its contract states the resolved case only through `Some(dir)` on success and the frame condition. The full success and failure characterisation is on `DotStore.Materialize`, and `DotStore.CreateStoreIsCustomStore` ties the resolved case to `custom_store`.
