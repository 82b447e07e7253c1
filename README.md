# forge core, modelled in Dafny

forge is a build tool for Java, Kotlin and Python projects. Its core does five things:

- It keeps a graph of build tasks (`TaskGraph`). It validates the graph: there must be no cycle and no dependency on a missing task. It orders the tasks and splits them into waves that can run in parallel.
- It runs those waves one after the other (`Executor`). It stops before the next wave once a task has failed.
- It skips unchanged sources through an incremental cache (`BuildCache`). The cache maps each source file to the digest of its content. A master hash of the cache names an archive in a remote cache store.
- It resolves Maven dependencies (`MavenResolver`):
  - it downloads each jar from Maven Central;
  - it reads the compile-scope dependencies from the jar's POM;
  - it recurses into them, down to depth 5, skipping what it has already resolved.
- It reads and validates `forge.toml` (`ForgeConfig`), and `forge add` inserts a dependency line into that file.

The model has one Dafny module per source file:

| module | source | contents |
|---|---|---|
| `Errors` | the error type | `ForgeError`, `Result`, `Option` |
| `Dag` | `dag.rs` | `TaskGraph` |
| `Cache` | `cache.rs` | `BuildCache` |
| `Executor` | `executor.rs` | `Executor` |
| `Maven` | `maven.rs` | `MavenResolver` |
| `Config` | `config.rs` | configuration loading |
| `Add` | `add.rs` | `forge add` |
| `Langs` | `lib.rs` | the extension table |

`Collections`, `Strings` and `Paths` hold the sequence, string and path operations the core uses.

How the source's entities become Dafny:

- Objects whose methods update fields are classes: `TaskGraph`, `BuildCache`, `Executor`, `MavenResolver`.
- Loops in the source are methods with loop invariants. Each is proved against a specification function or predicate, and lemmas state what that specification means.

The outside world is passed in as parameters:

- the directory walk (a list of entries);
- SHA-256 (a function nothing is assumed about);
- the file system (the outcome of each read or write);
- HTTP (a table of answers per URL);
- the XML reader (the stream of events it produces);
- the clock;
- the task runtime (for each task, what running it does).

A Rust `HashMap` hands out its keys in an order the program does not control. The model picks that order arbitrarily (`Collections.EnumerateKeys`), so every property proved about such a loop holds for every order.

What is proved, in short:

- Validation succeeds exactly when the graph is closed and acyclic. A reported cycle is a real cycle, and a reported missing task is really missing.
- The topological order respects every dependency. The waves are a partition of the tasks in which every dependency lies in an earlier wave.
- The executor records exactly the results of the started waves, and the build succeeds exactly when every task of every wave succeeded.
- The cache finds a change exactly when the current hashes differ from the stored ones. Right after an update it finds none. The master hash does not depend on the map's iteration order.
- A coordinate written by `forge add` parses back to itself. Adding the same dependency twice changes the file only once. The POM reader keeps exactly the resolvable dependencies of a dependencies section, in document order.
- A successful resolution has resolved every declared dependency. Dependencies and test dependencies never share a resolver key.

## Model

| member | source | states |
|---|---|---|
| Dag.TaskGraph.constructor | crates/forge-core/src/dag.rs:76-78 | the new graph has no task and no edge |
| Dag.TaskGraph.AddTask | crates/forge-core/src/dag.rs:81-89 | the task and its dependency list are stored under its name, replacing any earlier task of that name and nothing else; it always succeeds and checks nothing |
| Dag.TaskGraph.GetTask | crates/forge-core/src/dag.rs:273-275 | the result is present exactly when a task of that name exists; it is the stored task, with that name and the graph's dependency list |
| Dag.TaskGraph.Len | crates/forge-core/src/dag.rs:278-280 | the number of distinct task names |
| Dag.TaskGraph.IsEmpty | crates/forge-core/src/dag.rs:283-285 | true exactly when the graph has no task |
| Dag.TaskGraph.Dfs | crates/forge-core/src/dag.rs:106-135 | either the returned list is a cycle of the graph, or the name is finished, the path is as before and every finished name is ranked above all its dependencies |
| Dag.TaskGraph.VisitDeps | crates/forge-core/src/dag.rs:116-129 | the loop over a name's dependencies stops only with a real cycle; otherwise every dependency is finished and ranked below the name |
| Dag.TaskGraph.VisitDep | crates/forge-core/src/dag.rs:117-128 | one dependency: if it is on the path, the path from it onwards is a cycle; if it is not yet reached, it is searched; if it is finished, it is skipped |
| Dag.TaskGraph.FindCycle | crates/forge-core/src/dag.rs:101-145 | the search from every task, in map order, returns a cycle of the graph or a ranking of all tasks; nothing is found exactly when the graph is acyclic |
| Dag.TaskGraph.FindDangling | crates/forge-core/src/dag.rs:147-160 | nothing is found exactly when every dependency names a task; what is found is a task and a dependency it lists that names no task |
| Dag.TaskGraph.Validate | crates/forge-core/src/dag.rs:92-163 | Ok exactly when the graph is closed and acyclic (and then it has a ranking); an error is either a cycle of the graph or, for an acyclic graph, a missing task with its referrer in the message |
| Dag.TaskGraph.TopologicalOrder | crates/forge-core/src/dag.rs:166-223 | fails exactly when validation fails, with a validation error; otherwise a duplicate-free order in which every dependency of a task comes before it; it lists every task when no dependency list repeats a name |
| Dag.TaskGraph.ParallelLevels | crates/forge-core/src/dag.rs:227-270 | fails exactly when validation fails; otherwise non-empty, duplicate-free, pairwise disjoint waves that cover every task, and every dependency of a task lies in an earlier wave |
| Dag.Kahn | crates/forge-core/src/dag.rs:189-220 | the queue loop yields a topological order; every task in it has a duplicate-free dependency list; without repeated dependencies it lists every task exactly once |
| Dag.Release | crates/forge-core/src/dag.rs:210-219 | each task that lists the emitted task loses one pending dependency and joins the queue when none is left; the queue only grows at its end |
| Dag.ComputeLevels | crates/forge-core/src/dag.rs:238-267 | the wave loop over a closed, acyclic graph yields a level partition of all tasks |
| Dag.Recount | crates/forge-core/src/dag.rs:259-264 | the pending count of every task not yet completed becomes its number of dependency entries minus those already completed |
| Dag.Ready | crates/forge-core/src/dag.rs:243-247 | a name is ready exactly when it is counted, its count is zero and it is not completed; no name is listed twice |
| Dag.RankingAcyclic | crates/forge-core/src/dag.rs:92-145 | a graph that has a ranking (a finishing order of the search) has no cycle |
| Dag.NoBlockedSet | crates/forge-core/src/dag.rs:241-251 | in a ranked graph no non-empty set of tasks can have each member wait on another member, so the wave loop cannot stall |
| Dag.ZeroRemaining | crates/forge-core/src/dag.rs:189-195 | a count of entries minus distinct finished dependencies is zero exactly when the list has no repeats and every dependency is finished |
| Dag.KahnComplete | crates/forge-core/src/dag.rs:206-222 | when the queue runs dry on a closed, ranked graph without repeated dependencies, every task has been emitted |
| Dag.StuckTasksWait | crates/forge-core/src/dag.rs:241-251 | on a closed, ranked graph, if no remaining task can be released then every task is done |
| Dag.LevelsComplete | crates/forge-core/src/dag.rs:249-251 | when no task is ready, the waves found so far already cover every task |
| Dag.LevelsAreTopological | crates/forge-core/src/dag.rs:227-270 | the waves, concatenated, form a topological order that lists every task |
| Dag.CycleOnPath | crates/forge-core/src/dag.rs:118-123 | a dependency already on the search path closes a cycle from its first occurrence |
| Cache.BuildCache.constructor | crates/forge-core/src/cache.rs:26-36 | the default cache: version 0, no hashes, no timestamp |
| Cache.BuildCache.FromRecord | crates/forge-core/src/cache.rs:55-57 | a cache holding exactly the parsed record's fields |
| Cache.BuildCache.Load | crates/forge-core/src/cache.rs:40-58 | a missing file gives a fresh version-1 cache; an unreadable file is an I/O error on .forge/cache.json; a file that does not parse is CacheCorrupted; a parsed file gives its contents |
| Cache.BuildCache.ComputeHashes | crates/forge-core/src/cache.rs:281-329 | the walk loop gives the hashes of the tree: empty for a missing directory, otherwise the tracked files folded in walk order, stopping at the first unreadable one |
| Cache.HashEntriesMeaning | crates/forge-core/src/cache.rs:291-328 | hashing fails exactly when a tracked file cannot be read; otherwise the keys are exactly the tracked relative paths, each mapped to the digest of a content read for that path |
| Cache.HashEntriesErrStays | crates/forge-core/src/cache.rs:309-312 | once a read fails, the rest of the walk does not change the error |
| Cache.UnknownLanguageTracksAll | crates/forge-core/src/cache.rs:304-306 | with the empty extension list of an unknown language, every file is hashed |
| Cache.ListedExtensionsTracked | crates/forge-core/src/cache.rs:299-306 | a file named stem.ext, with ext an extension of the language and a stem free of '.' and '/', is tracked in any directory |
| Cache.BuildCache.HasChanges | crates/forge-core/src/cache.rs:84-103 | a hashing error is passed on; otherwise the answer is whether the current hashes differ from the stored ones |
| Cache.MapsDiffer | crates/forge-core/src/cache.rs:88-102 | the two loops report a change exactly when the two maps differ |
| Cache.ChangesAreThreeWay | crates/forge-core/src/cache.rs:88-102 | two maps differ exactly when a current file is new or modified, or a stored file is gone |
| Cache.BuildCache.UpdateHashes | crates/forge-core/src/cache.rs:106-115 | on success the stored hashes become the tree's and the timestamp becomes `now`; on a hashing error nothing changes |
| Cache.BuildCache.UpdateThenCheck | crates/forge-core/src/cache.rs:84-115 | right after an update, checking the same tree finds no change |
| Cache.BuildCache.ChangedFiles | crates/forge-core/src/cache.rs:118-130 | the current paths whose stored hash is missing or different, each listed once; deleted paths are not listed |
| Cache.BuildCache.ComputeMasterHash | crates/forge-core/src/cache.rs:260-273 | the digest of every path followed by its hash, in ascending path order, whatever order the map hands out its keys in |
| Cache.ConcatEntries | crates/forge-core/src/cache.rs:265-270 | the loop feeds the hasher exactly the master text of the key list |
| Cache.MasterTextOrderFree | crates/forge-core/src/cache.rs:262-263 | sorting any duplicate-free listing of the keys gives the same text, so the master hash depends on the entries alone |
| Cache.RemoteUrl | crates/forge-core/src/cache.rs:157-158 | the remote without its trailing slashes, then "/cache/", the master hash and ".tar.gz" |
| Cache.RemoteUrlTrailingSlash | crates/forge-core/src/cache.rs:158 | a remote with or without a trailing slash addresses the same archive |
| Cache.BuildCache.UploadToRemote | crates/forge-core/src/cache.rs:145-207 | nothing happens when pushing is off or there is no output; failures to create the temporary file or the archive are I/O errors; otherwise the archive is sent to the master hash's URL with the token, and whatever the store answers the result is Ok |
| Cache.BuildCache.DownloadFromRemote | crates/forge-core/src/cache.rs:210-257 | the request goes to the master hash's URL with the token; the result is true exactly for a 2xx answer that unpacks; it is never an error |
| Executor.ExecuteSingleTask | crates/forge-core/src/executor.rs:231-264 | a command's result carries its exit flag and output; internal and composite tasks succeed with no output; a command that cannot be found is CommandNotFound, any other spawn failure an I/O error on the project directory; results are never marked cached |
| Executor.RunLevel | crates/forge-core/src/executor.rs:109-183 | spawning a wave then awaiting each handle in spawn order gives the same progress as awaiting the wave's outcomes in order |
| Executor.AwaitAllMeaning | crates/forge-core/src/executor.rs:138-183 | awaiting a wave appends the results its tasks returned, in order, and keeps the success flag only if every task returned a successful result |
| Executor.RunLevelsMeaning | crates/forge-core/src/executor.rs:95-184 | the build succeeds exactly when every task of every wave returned a successful result; the recorded results are those of the started waves, wave by wave |
| Executor.Started | crates/forge-core/src/executor.rs:95-98 | the started waves are all the waves up to and including the first one that fails |
| Executor.NoLevelAfterFailure | crates/forge-core/src/executor.rs:95-98 | no wave after a failing wave is started |
| Executor.RecordedResultsAreRun | crates/forge-core/src/executor.rs:111-172 | every recorded result was produced by a task of one of the waves, and none is marked cached |
| Executor.StderrExcerpt | crates/forge-core/src/executor.rs:160-166 | the error output shown for a failed task is at most its first 20 lines, and nothing for a success or an empty error output |
| Executor.Executor.constructor | crates/forge-core/src/executor.rs:62-66 | an executor over the given directory, cache and verbosity |
| Executor.Executor.New | crates/forge-core/src/executor.rs:60-67 | succeeds exactly when the cache loads; a missing cache file gives a fresh version-1 cache |
| Executor.Executor.Execute | crates/forge-core/src/executor.rs:71-222 | an invalid graph is reported before any task runs and nothing is saved; otherwise the waves are a level partition of the tasks, the cache is saved once, and the result is that of the wave loop, or the save error |
| Maven.ParseCoordinate | crates/forge-deps/src/maven.rs:27-44 | a key with exactly one ':' gives the coordinate of its two halves and the version; any other key is the documented format error |
| Maven.ParseDisplayRoundTrip | crates/forge-deps/src/maven.rs:27-80 | parsing "g:a" with a version and displaying the result gives "g:a:v" back |
| Maven.DisplaySplit | crates/forge-deps/src/maven.rs:78-80 | the displayed coordinate splits at ':' into its three fields |
| Maven.UrlShapes | crates/forge-deps/src/maven.rs:47-75 | the jar URL is the artifact directory followed by the jar file name; it ends in ".jar", and the POM URL is the same address ending in ".pom" |
| Maven.Step | crates/forge-deps/src/maven.rs:249-313 | one XML event: text is captured only inside a dependency; a coordinate is added only at the end of a dependency element whose fields make it kept; inside dependencyManagement no dependency is entered |
| Maven.ScanKeepsOnlyComplete | crates/forge-deps/src/maven.rs:274-296 | every coordinate the scan adds has non-empty fields and a version that is not a `${…}` property |
| Maven.ManagedSectionSilent | crates/forge-deps/src/maven.rs:254-276 | nothing is added inside dependencyManagement until it closes |
| Maven.ReadDependency | crates/forge-deps/src/maven.rs:251-308 | one dependency element adds its coordinate exactly when its scope is absent, empty or compile and its fields are complete |
| Maven.ReadSection | crates/forge-deps/src/maven.rs:251-308 | a dependencies section yields its resolvable declarations, in document order |
| Maven.ReadPom | crates/forge-deps/src/maven.rs:233-318 | a POM with one dependencies section yields exactly the resolvable declarations of that section, in order |
| Maven.ParsePomDependencies | crates/forge-deps/src/maven.rs:233-318 | the event loop returns the dependencies the scan specification gives, stopping at the end of the document or a read error |
| Maven.FetchTransitiveDeps | crates/forge-deps/src/maven.rs:201-230 | a request that cannot be sent or a body that cannot be read is a download error; a non-2xx answer means no dependencies; otherwise the POM's dependencies |
| Maven.ResolveKey | crates/forge-deps/src/maven.rs:169 | the visited-set key belongs to its target directory |
| Maven.SeparateKeySpaces | crates/forge-deps/src/maven.rs:105-123 | keys resolved into .forge/deps never coincide with keys resolved into .forge/test-deps |
| Maven.MavenResolver.constructor | crates/forge-deps/src/maven.rs:95-102 | jars go to .forge/deps of the project and nothing is resolved yet |
| Maven.MavenResolver.TestCacheDirOf | crates/forge-deps/src/maven.rs:105-107 | for a resolver made by the constructor, test dependencies go to .forge/test-deps of the same project |
| Maven.MavenResolver.DownloadDependency | crates/forge-deps/src/maven.rs:321-384 | an already resolved key or a jar already on disk is Ok without a download; otherwise each failed step (send, non-2xx status, body, write) is its own error; the key is recorded exactly when the result is Ok |
| Maven.MavenResolver.ResolveRecursive | crates/forge-deps/src/maven.rs:163-196 | nothing happens beyond depth 5 or for a resolved key; otherwise on success the key is resolved and its jar is listed first among the new downloads; resolved keys only grow and stay in the target directory; every listed jar is on disk |
| Maven.MavenResolver.ResolveDeclared | crates/forge-deps/src/maven.rs:138-155 | a malformed key is its parse error with nothing changed; on success the declared dependency is resolved in the target directory |
| Maven.MavenResolver.ResolveInternal | crates/forge-deps/src/maven.rs:127-159 | a directory that cannot be created is an I/O error; on success every declared dependency is resolved in the target directory, and every returned path is on disk |
| Maven.MavenResolver.ResolveAll | crates/forge-deps/src/maven.rs:110-115 | resolution into the jar directory: on success every declared dependency is resolved there |
| Maven.MavenResolver.ResolveTestDeps | crates/forge-deps/src/maven.rs:118-123 | resolution into the test-dependency directory: on success every declared dependency is resolved there |
| Config.FromRaw | crates/forge-core/src/config.rs:16-146 | each key left out of the file takes its default ("0.1.0", "build", the per-language source directories, "17"); a missing language section stays missing |
| Config.Validate | crates/forge-core/src/config.rs:177-203 | Ok exactly for java, kotlin and python; any other language is UnsupportedLanguage |
| Config.GenerateTemplate | crates/forge-core/src/config.rs:206-219 | the sample of a supported language; any other language is UnsupportedLanguage |
| Config.SupportedEverywhere | crates/forge-core/src/config.rs:177-219 | the languages that validate, those with a template and those with tracked extensions are the same |
| Config.SourceDir | crates/forge-core/src/config.rs:222-241 | the language section's source, the language's default without the section, "src" for any other language |
| Config.SourceDirDefault | crates/forge-core/src/config.rs:132-141 | a file that does not set its language's source directory gets that language's default |
| Config.MainEntry | crates/forge-core/src/config.rs:244-251 | the main class (Java, Kotlin) or main script (Python) of a present section; nothing otherwise |
| Config.Load | crates/forge-core/src/config.rs:152-174 | a missing file is ConfigNotFound, an unreadable file an I/O error, a file that does not parse a ConfigParseError; a loaded configuration always validates |
| Config.LoadSucceeds | crates/forge-core/src/config.rs:152-174 | loading succeeds exactly when the file parses and names a supported language |
| Langs.ExtensionsForLang | crates/forge-langs/src/lib.rs:10-17 | non-empty exactly for the three supported languages; every extension is non-empty and free of '.' and '/' |
| Add.SplitDependency | crates/forge-cli/src/add.rs:24-30 | a three-part dependency splits into key "g:a" and value v that put back together give the input; anything else is the whole text at "latest" |
| Add.DependencyLine | crates/forge-cli/src/add.rs:32 | the line starts with the quoted key |
| Add.InsertPosition | crates/forge-cli/src/add.rs:43 | just after the first newline from the header on, or one past the header's first character when no newline follows |
| Add.PlaceLine | crates/forge-cli/src/add.rs:40-48 | with the header present, the line and a newline are inserted at the insert position and all old text is kept in order; without it, the header and the line are appended |
| Add.AddToContent | crates/forge-cli/src/add.rs:24-48 | the file is left alone exactly when the quoted key already occurs in it |
| Add.AddIdempotent | crates/forge-cli/src/add.rs:34-48 | adding the same dependency a second time leaves the file unchanged |
| Add.AddedCoordinateParses | crates/forge-cli/src/add.rs:24-32 | the key and value `forge add g:a:v` writes are read back by the resolver as that coordinate |
| Add.CmdAdd | crates/forge-cli/src/add.rs:11-57 | a missing or unreadable file is an error and nothing is written; otherwise the written text is the edited content, and a write failure is the error |
| Collections.EnumerateKeys | crates/forge-core/src/cache.rs:262 | a map's keys, each exactly once, in an arbitrary order |
| Strings.Sort | crates/forge-core/src/cache.rs:263 | a strictly ascending arrangement of the same distinct keys |
| Strings.SortedUnique | crates/forge-core/src/cache.rs:263 | two strictly ascending lists of the same keys are equal |
| Strings.TrimEnd | crates/forge-core/src/cache.rs:158 | the longest prefix that does not end in the character; only that character is removed |
| Paths.Extension | crates/forge-core/src/cache.rs:299-302 | the text after the last '.' of the file name, absent for names without an inner dot |
| Paths.JoinPath | crates/forge-deps/src/maven.rs:333 | an absolute name replaces the directory; a relative one follows the directory with one separator, none after a trailing '/' or an empty directory |
| Paths.FileNameOfJoin | crates/forge-core/src/cache.rs:299-300 | the file name of a joined path is the name that was joined, in any directory |
| Paths.ParentOfJoin | crates/forge-deps/src/maven.rs:106 | the parent of a joined path is the directory, when that does not end in '/' |

## Left out

- `BuildCache::save` and `BuildCache::clean` are not modelled: they only write or remove .forge. `Executor.Execute` records each save as a ghost log entry and takes the save outcome as an input.
- The JSON and TOML syntax is not modelled. A cache file arrives already parsed or marked as malformed, and so does a configuration file.
- The content of the three template files is not modelled; it is a parameter of `Config.GenerateTemplate`.
- SHA-256 is a function parameter. Its hex formatting is not modelled.
- The directory walk is given as its list of entries. Entries the walk fails on are skipped, as the source does. Byte content is `seq<bv8>`, and the lossy UTF-8 conversion of paths is not modelled.
- The following are outcomes given as inputs:
  - tar and gzip compression, temporary files and their removal;
  - HTTP requests and bodies;
  - directory creation and file writes.
- A `panic` from `unwrap` on those paths is not modelled. This covers `tar.into_inner().unwrap()`, `std::fs::read(...).unwrap()`, `resp.bytes().await.unwrap()` and `create_dir_all(...).unwrap()` in cache.rs, and `parent().unwrap()` in maven.rs. The model treats those steps as succeeding.
- Time is not modelled. Timestamps and durations are inputs (`now`, `duration`, `elapsed`).
- Printing, progress bars, colours and `tracing` warnings are not modelled. The exception is the choice of stderr lines a failed task shows, which `Executor.StderrExcerpt` models. The warning `validate` gives for a language without its section is printing only.
- Paths.Parent: returns "" instead of "/" for a path directly under the root, and does not drop a trailing '/'. The paths the tool takes parents of never have those forms.
- The unused `in_degree` table in `topological_order` (dag.rs:169-181) is not modelled. It has no effect on the result.
- Tokio concurrency is not modelled. The tasks of a wave run concurrently, but their handles are awaited in spawn order, and that order is what the model follows.
- The `TaskNotFound` error for a wave task missing from the graph (executor.rs:112-116) cannot happen after `parallel_levels` succeeds. The model proves every wave task exists.
- The quick_xml tokenizer, its trimming and its unescaping are not modelled. A POM arrives as its event stream, and text whose unescaping fails arrives as `Text(None)`, which the source reads as "".
- Offsets in `forge add` are counted in characters rather than bytes. They agree with byte offsets here, because each position lies just after an ASCII character.
- Maven.MavenResolver.DownloadDependency: promises that the returned jar is on disk only when the key was not already resolved. For an already resolved key, the source returns the path without looking at the disk.
- Maven.MavenResolver.ResolveRecursive: states the guards, the first jar and the growth of the resolved set. It does not state the exact set of keys a transitive walk resolves, which depends on every POM it reads.
- Maven.MavenResolver.ResolveInternal: the returned list holds the jars downloaded in the map's iteration order. Only their presence on disk is stated, not their order.
