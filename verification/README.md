# ichr: a verified model of the launcher's core

ichr is a Minecraft launcher. Most of it moves bytes between the network and the disk; this
project models the parts where a subtle rule decides whether the result is right, and proves
what those rules give: which mods a resolution downloads and in which order, what is on disk after
an install that was cancelled or killed half way, when `${name}` replacement depends on the order of
the variables, which saved key bindings load again, and so on. The network, the disk, ciphers and
hash functions are parameters; everything is proved for all of their answers.

Concurrent code is a step relation between states, and its theorems quantify over all finite runs, so
a crash after any step is a run that stops there. Code that updates variables in a loop or fields of an
object is a method proved against a function, and the properties are proved about that function.

| file | what it models |
|---|---|
| `DepResolve.dfy` | the breadth-first mod dependency resolver |
| `AtomicWrites.dfy` | many tasks writing files through temporary names at the same time |
| `LoaderInstall.dfy` | the Fabric and Quilt install pipeline with its two shortcuts |
| `JreInstall.dfy` | repeated, interrupted installs of a Java runtime |
| `Translate.dfy` | version-JSON translation and the in-place migration |
| `Maven.dfy` | Maven coordinates and their paths |
| `Substitute.dfy` | `${name}` replacement in launch arguments |
| `ModpackDownload.dfy`, `Overrides.dfy` | downloading the files of a modpack and extracting its overrides |
| `Keybinds.dfy` | the wire format of key bindings and matching |
| `InheritsChain.dfy` | the install-time and the launch-time walk along `inheritsFrom` |
| `Accounts.dfy` | accounts and refresh tokens over two storage tiers |
| `LogRing.dfy` | two pipes drained into one log and one ring of lines |
| `MavenMetadata.dfy`, `Slug.dfy` | the version scanner and instance directory names |
| `Common.dfy`, `Strings.dfy`, `Decimals.dfy`, `Counting.dfy` | shared definitions |

## Where a promise needs a condition

Here the code does less than its documentation or its callers take for granted. The model follows the code;
each point is a theorem below, with the exact condition and a run or input that shows it.

- `atomic_write` replaces the extension by `.tmp`. Concurrent writes all take effect on success if and
  only if no destination is the temporary name of another one that has to be downloaded
  (`SafeExactlyWithoutClash`, a losing run in `ClashLosesFile`). A download without any error can always
  be completed if and only if the files that have to be downloaded have temporary names of their own
  (`DoomExactlyWithSharedTmp`, `CompletableExactly`, a stuck run in `SharedTmpCanDoom`); two libraries
  that differ only in extension share one (`ExtensionsShareTmp`).
- The loader pipeline's second shortcut tests only that files exist. With the id that was predicted it is
  only ever taken when the first shortcut has just found this version JSON broken, and then the install
  reports success on a version that cannot be launched (`InstallOutcome`, `SecondShortcutIsStale`,
  `StaleRunBreaks`, `StaleExample`).
- The translators are not idempotent: a second pass drops hashes, sizes and repositories. What makes the
  migration idempotent is its flatness test (`RetranslateExactly`, `RetranslateExample`,
  `MigrationSettles`). Quilt's recorded URL is not always the URL the jar came from
  (`RecordedUrlIsTheDownloadUrl`, `RecordedUrlExample`).
- The comment in `substitute.rs` says the order of replacement is irrelevant. It is, on all templates,
  if and only if no value contains or ends in the start of another variable's placeholder
  (`SequentialIsSimultaneousExactly`, `OrderMatters`). For the launcher's own order it is enough that
  this holds for the variables listed later (`LauncherOrderSuffices`).
- The depth limit in `inherits.rs` is three, but the resolver accepts two parents only, while the
  install-time walk fetches and stores three (`ResolverAcceptsExactly`, `ThreeParentsExample`).
- A removal that deletes the token and then cannot save the list leaves a listed account that cannot log
  in; it is the only operation that does, and the account stays so until a token is stored for it again
  (`LoadableExactly`, `StrandedExactly`, `StrandedAccount`).
- Library paths: a group that starts with a dot yields an absolute path, which replaces the libraries
  directory it is joined to (`LibraryPathExactly`, `LeadingDotExample`). Coordinates with dotted
  extensions can share a path, doubled dots in a group do not distinguish files, and a segment that is a
  single dot vanishes (`SamePathExactly`, `SameFileExactly`, `DottedExtensionCollides`,
  `DoubledDotCollides`, `DotSegmentsCollide`).
- The slug policy trims trailing dashes, but before the cut: exactly the names cut behind a dash get a
  slug that ends in one, and a different slug when their slug is slugified
  (`TrailingDashExactly`, `SlugifyTwice`, `TrailingDashExample`).
- The comment on `download_files` says the first allowed and successful URL of a file wins. A disallowed URL is
  not passed over but ends the download: success is possible if and only if every file's first URL is allowed
  (`ModpackDownload.SucceedsExactly`, `ErrorNamesAReason`).
- The game's log, unlike the installer's, can run two lines together: for every game that writes to both
  pipes, in some schedule (`GameLogSafeExactly`, `GameLogCanGlue`).

## Model

| member | source | states |
|---|---|---|
| DepResolve.ProcessDep | src/mods/dep_resolve.rs:160-249 | One edge: which of the two aborts happens and exactly why; otherwise one record is added with the flags of its kind, and the seen set and queue grow only for a Required project met for the first time, by its latest version. |
| DepResolve.WalksAreFound | src/mods/dep_resolve.rs:75-109 | When every node is expanded, each project a walk of n Required edges reaches was found at a level of at most n. |
| DepResolve.WalkIsClosure | src/mods/dep_resolve.rs:75-109 | The new downloads of a finished walk are exactly the reachable projects, each once, at its latest version, in non-decreasing shortest distance from the root; and the input is resolvable. |
| DepResolve.NewEdge | src/mods/dep_resolve.rs:214-246 | A first-met Required project keeps the loop invariant: it joins the nodes one level below the asker, so levels stay sorted. |
| DepResolve.NextNode | src/mods/dep_resolve.rs:80-83 | Popping the queue moves to the next node in breadth-first order and keeps the invariant. |
| DepResolve.EdgeFails | src/mods/dep_resolve.rs:187-236 | Each abort in an edge shows that the input is not resolvable, and the error names a project and a reason that justify it. |
| DepResolve.Explore | src/mods/dep_resolve.rs:75-109 | Terminates on every finite catalogue, cyclic ones too; succeeds if and only if the input is resolvable; the records are one per resolvable edge of the root and of each new version, in order; the new downloads are the closure. |
| DepResolve.UniqueIds | src/mods/dep_resolve.rs:117-126 | The ids asked for titles are the records' projects, each once, in order of first appearance. |
| DepResolve.FirstSeenInOrder | src/mods/dep_resolve.rs:117-126 | Of two such ids the earlier one has been met at a point where the later one has not. |
| DepResolve.HydrateTitles | src/mods/dep_resolve.rs:127-135 | Every title becomes the looked-up one or the project id; nothing else changes. |
| DepResolve.TitlesChangeNothing | src/mods/dep_resolve.rs:127-135 | Titles have no influence on the new downloads and the edge records. |
| DepResolve.CountNew | src/mods/dep_resolve.rs:137-148 | The totals are the number of new downloads and the sum of their primary file sizes modulo 2^64. |
| DepResolve.PrimaryFileExactly | src/mods/filter.rs:90-92 | The file whose size is counted is the first one marked primary, and the first file when none is marked. |
| DepResolve.ResolveRequiredDeps | src/mods/dep_resolve.rs:58-156 | The whole call: success means a resolvable input and a graph with the closure, one record per edge, titles and totals; failure means a justified conflict, missing version or fetch error, or a title lookup that failed for exactly the records' projects. The graph is described a second time by the dependencies' own fields. |
| DepResolve.TargetByFields | src/mods/dep_resolve.rs:83-93 | A dependency points at its own project id, or else at the project its pinned version loads with, or else at nothing; it fails exactly when that version does not load. |
| DepResolve.ResolvedInPlainTerms | src/mods/dep_resolve.rs:75-148 | A successful graph, said of the dependencies' own fields and the catalogue: every dependency of the root and of each new version that names a project, or a version that loads, has its record; a Required one that is not installed is among the new downloads; every record and every new download comes from such a dependency. |
| AtomicWrites.FailureIsForever | src/loader/service.rs:750-779 | A failed task stays failed in every later state. |
| AtomicWrites.DoomIsForever | src/mojang/cache.rs:18-26 | Once two writers share a temporary file, or one lost its temporary name, every later state is doomed or failed, if names do not clash. |
| AtomicWrites.HeldBound | src/loader/service.rs:725-740 | No step takes more permits than the semaphore has. |
| AtomicWrites.GuardedStays | src/loader/service.rs:974-995 | A task whose temporary file is another one's destination, and whose own file is already good, keeps that file and never downloads. |
| AtomicWrites.OthersStayClean | src/mojang/cache.rs:18-26 | A step of one task leaves the temporary file, node and stored result of every other task alone, unless the schedule is doomed. |
| AtomicWrites.StepKeepsInv | src/mojang/cache.rs:18-26 | Every step keeps the invariant: clashing tasks stay put, and the state is failed, doomed, or every writer's file holds the prefix it has written and every finished destination a file, with accepted bytes when tasks for one destination agree on the hash. |
| AtomicWrites.RunKeepsInv | src/mojang/cache.rs:18-26 | From a start without clashes every state of every interleaving satisfies the invariant. |
| AtomicWrites.SuccessStoresAll | src/mojang/cache.rs:18-26 | When all tasks report success every destination has a file, and when tasks for one destination agree on the hash, one its hash test accepts, in every interleaving. |
| AtomicWrites.ClashLosesFile | src/mojang/cache.rs:22-24 | If a destination is the temporary name of another one that has to be downloaded, some schedule has every task succeed and the file missing. |
| AtomicWrites.SafeExactlyWithoutClash | src/mojang/cache.rs:18-26 | For any starting disk and distinct destinations: success means everything is stored, in all interleavings, if and only if no destination is the temporary name of another one that has to be downloaded. |
| AtomicWrites.DoomedNeverSucceeds | src/mojang/cache.rs:18-26 | From a doomed state no schedule ends with every task successful. |
| AtomicWrites.SharedTmpCanDoom | src/mojang/cache.rs:22-24 | Two tasks that have to download, with one temporary name and two permits, can reach a doomed state with nothing failed and every byte right. |
| AtomicWrites.DoomExactlyWithSharedTmp | src/mojang/cache.rs:22-24 | No schedule without failures is ever doomed if and only if the tasks that have to download have temporary names of their own. |
| AtomicWrites.UndoomedCanFinish | src/mojang/cache.rs:18-26 | From any state without failure or doom some schedule brings every task to success. |
| AtomicWrites.CompletableExactly | src/mojang/cache.rs:18-26 | Every failure-free partial run can be completed if and only if those temporary names are pairwise different. |
| AtomicWrites.NoTmpNamesNoClash | src/mojang/cache.rs:22 | Destinations that do not end in `.tmp` never clash. |
| AtomicWrites.TmpOfBareName | src/mojang/cache.rs:22 | The temporary name of a file whose name has no dot behind its first character is the name with `.tmp` appended. |
| LoaderInstall.AttachedIsOnDisk | src/loader/service.rs:943-962 | The existence test over the libraries answers true exactly when each has a path and a file there. |
| LoaderInstall.AlreadyInstalledExactly | src/loader/service.rs:943-963 | The second test: no version JSON means no; all libraries there means yes; otherwise the first one that is not there decides, an invalid coordinate being an error and a missing file a no. |
| LoaderInstall.PoolStepKeepsInv | src/loader/service.rs:721-748 | A step of any library task keeps the pipeline's invariant: the instance and the version JSONs are untouched. |
| LoaderInstall.StepKeepsInv | src/loader/service.rs:574-830 | Every step of the pipeline keeps the invariant, which says for each stage what was written and how the id was reached. |
| LoaderInstall.RunKeepsInv | src/loader/service.rs:574-830 | Every state of every run satisfies it. |
| LoaderInstall.DownloadIsLaunchable | src/loader/service.rs:783-803 | The JSON written after the downloads reads back, and every library it lists was stored. |
| LoaderInstall.InstallOutcome | src/loader/service.rs:574-830 | In all interleavings, with failure, cancellation or crash anywhere, the instance keeps its loader until the manifest write. Without clashing names a finished install is launchable if and only if it did not start from a stale version JSON; when entries for one path also agree on its hash, on the download path every library passed its hash test. The manifest names the loader and version asked for, and on the download path every file has the hash the profile gives for it, up to the case of the digits. |
| LoaderInstall.StoredMeansHash | src/loader/service.rs:1025-1033 | When every library is stored, the bytes at the path of each one that has a hash hash to it, up to the case of the digits. |
| LoaderInstall.MismatchIsNeverWritten | src/loader/service.rs:1025-1033 | A served body with another hash than the profile's is written by no step of any run. |
| LoaderInstall.GoodFilesAreKept | src/loader/service.rs:974-998 | A task with a permit downloads exactly when the file it looks at is missing or has another hash than the profile's; a library without a hash is kept if it exists. |
| LoaderInstall.ReattachByFields | src/loader/service.rs:888-938 | The first shortcut finds an id exactly when the version JSON is an object with that `id`, whose libraries, if any, are entries with a name that has a path and a file there. |
| LoaderInstall.SecondShortcutIsStale | src/loader/service.rs:704-719 | When the fetched id is the predicted one, reaching the second shortcut with a positive answer is the same as being stale. |
| LoaderInstall.StaleRunBreaks | src/loader/service.rs:704-830 | From every stale store a run ends in success and names a version that cannot be launched. |
| LoaderInstall.StaleExample | src/loader/service.rs:704-719 | A concrete stale store: an unreadable version JSON and a profile without libraries. |
| LoaderInstall.SucceedsExactly | src/loader/service.rs:574-830 | When every served body passes its hash test, some run ends in success if and only if the predicted version can be attached, or the profile arrives and all its coordinates are valid. |
| LoaderInstall.PoolIsSafe | src/loader/service.rs:966-1043 | The two conditions in terms of the profile: same path means same hash, and no library file ends in `.tmp`. |
| LoaderInstall.CancelledNeverCommits | src/loader/service.rs:602-608 | Once the token fires before the manifest write begins, the instance never changes in any later state. |
| LoaderInstall.PermitsBounded | src/loader/service.rs:725-743 | At most eight library tasks hold a permit in any state. |
| LoaderInstall.ProgressNeverFalls | src/loader/service.rs:749-763 | Between any two states of a run the reported percentage does not decrease, and it never exceeds 100. |
| LoaderInstall.PctIsShare | src/loader/service.rs:749-763 | While libraries download the percentage is two plus the whole part of 88 times the finished share. |
| LoaderInstall.PctEnds | src/loader/service.rs:749-763 | It starts at 2 and ends at 90. |
| JreInstall.FilesDistinct | src/java/mojang_jre.rs:255-279 | A manifest is a map, so its files have different destinations. |
| JreInstall.SafeAsInArchives | src/java/mojang_jre.rs:427-431 | A manifest path passes the safety test exactly if an archive entry of that name does. |
| JreInstall.DownloadStepKeepsInv | src/java/mojang_jre.rs:293-363 | Starting, running and joining the parallel downloads keeps the invariant of the temporary tree. |
| JreInstall.StepKeepsInv | src/java/mojang_jre.rs:225-412 | Every step of an attempt, cut off wherever, keeps it. |
| JreInstall.FinalIsComplete | src/java/mojang_jre.rs:231-238 | Over any sequence of attempts with manifests whose files do not clash, the final directory, if there is one, holds every directory, link and hash-matching file of its manifest; so one existing file answers for the tree. |
| JreInstall.FinalIsStable | src/java/mojang_jre.rs:404-410 | Once a non-empty runtime is in place no later attempt changes it. |
| JreInstall.PresentIsReused | src/java/mojang_jre.rs:234-238 | Once the executable is there, as a file or a link, and nothing is under way, no attempt gets past the early return. |
| JreInstall.NothingLeftOverIsTrusted | src/java/mojang_jre.rs:297-331 | No file that survived in the temporary directory is taken for a download: in every run a file is done only after it was written. |
| JreInstall.PermitsBounded | src/java/mojang_jre.rs:292-343 | At most eight files are downloaded at a time, in any state of any run. |
| JreInstall.ClashBreaks | src/java/mojang_jre.rs:293-343 | With a name clash a run ends in a final directory that is not complete. |
| JreInstall.TrustworthyExactlyWithoutClash | src/java/mojang_jre.rs:225-412 | Every run that leaves a final directory leaves a complete one if and only if no file's path is another file's temporary name. |
| Translate.ToMojangShape | src/loader/fabric.rs:197-279 | The in-place loop over the library array computes the translation, errors included. |
| Translate.EntriesPointwise | src/loader/fabric.rs:224-273 | The array translates exactly when each entry does, and then entry by entry. |
| Translate.EarlierErrorWins | src/loader/fabric.rs:224-240 | The first bad entry decides the error. |
| Translate.TranslationKeeps | src/loader/fabric.rs:197-279 | All other top-level fields stay; libraries keep number, order and name, and each gets the path the downloader writes to and the hash and size it had. |
| Translate.TranslatedInPlainTerms | src/loader/fabric.rs:242-272 | Each translated entry, said of the two JSONs alone: the raw name; under `path` the path of that coordinate; under `url` the slash-trimmed own repository, or the default one, then a slash and the path; `sha1` and `size` exactly when the raw entry has them as a string and an unsigned number, with those values. |
| Translate.TranslatesExactly | src/loader/fabric.rs:197-248 | A profile translates exactly if it is an object whose libraries, if any, are an array of objects with a name that has a path. |
| Translate.TrimSlashesExactly | src/loader/maven.rs:154-161 | What is trimmed off a repository URL is slashes, and none is left at its end. |
| Translate.TranslationIsNeverFlat | src/launcher/service.rs:243-253 | A translated JSON is never taken for the flat shape. |
| Translate.FlatByFields | src/launcher/service.rs:243-253 | Flat means: the first library is an object with a `url` and no `downloads`. |
| Translate.RetranslateEntry | src/loader/fabric.rs:224-273 | Translating a translated entry succeeds, and changes nothing if and only if it had no hash, no size and the default repository. |
| Translate.RetranslateExactly | src/loader/quilt.rs:204-285 | A second translation of a whole JSON is the identity if and only if no library carried anything it would lose. |
| Translate.RetranslateExample | src/loader/fabric.rs:250-272 | One library with a hash: the second translation loses it. |
| Translate.RecordedUrlIsTheDownloadUrl | src/loader/quilt.rs:290-296 | The recorded URL equals the downloader's exactly if the entry has its own, the loader is Fabric, or the coordinate is Fabric's. |
| Translate.FallbackRepoSpelled | src/loader/service.rs:849-855 | The downloader's default is Quilt's repository for names that begin with `org.quiltmc:` and Fabric's for all others. |
| Translate.RecordedUrlExample | src/loader/quilt.rs:290-296 | Quilt's own loader without a URL is recorded under one repository and downloaded from another. |
| Translate.TranslatedReadsBack | src/loader/service.rs:904-915 | The re-attach parser reads from a translated JSON the id and library names of the profile, and every coordinate has a path. |
| Translate.ProfileByFields | src/loader/types.rs:40-56 | Which JSONs are profiles, and which fields become the id and a library's name, URL and hash. |
| Translate.MinimalByFields | src/loader/service.rs:904-915 | Which JSONs the re-attach parser reads, and that it reads `id` and each library's `name`. |
| Translate.PredictionSpelled | src/loader/service.rs:861-877 | The predicted id is the loader's prefix, the loader version, a dash and the Minecraft version. |
| Translate.PredictionReadsBack | src/loader/service.rs:861-877 | The migration reads loader and version back from a predicted id. |
| Translate.IdParsingInvertsPrediction | src/launcher/service.rs:304-322 | An id reads as (loader, version) for this Minecraft version if and only if it is the id predicted from them. |
| Translate.VersionStore.constructor | src/launcher/service.rs:267-272 | A store of version JSONs and an empty log of requests. |
| Translate.VersionStore.MigrateInPlaceIfNeeded | src/launcher/service.rs:267-365 | The file it writes, the request it makes and the result are those of the specification, failing reads and writes included; after success the file is not flat. |
| Translate.VersionStore.MigrateTwice | src/launcher/service.rs:255-266 | Two calls are one: the second writes nothing and requests nothing, whatever the network would answer, and can only fail to read the file. |
| Translate.MigrationSettles | src/launcher/service.rs:285-287 | The same about the specification: a successful migration leaves a settled file. |
| Translate.MigrationFetchesItsOwnProfile | src/launcher/service.rs:289-364 | A stale install is fetched under the loader, version and Minecraft version it was made from; the file is written exactly when the answer is a profile that translates and the disk takes it, it is the translation of that answer, and it names the fetched libraries. |
| Maven.ParseAccepts | src/loader/maven.rs:63-119 | A coordinate is accepted exactly when the full colon split has three to five parts, each safe: the five-way cut admits no sixth. |
| Maven.ParseOfPrint | src/loader/maven.rs:63-119 | Parsing inverts printing for every valid coordinate. |
| Maven.PrintOfParse | src/loader/maven.rs:63-119 | An accepted string is the print of what it parses to. |
| Maven.SamePathExactly | src/loader/maven.rs:131-152 | Two coordinates have one path exactly if group, artifact, version and file-name suffix agree. |
| Maven.PathSpelled | src/loader/maven.rs:131-152 | The path spelled out: the group with slashes for dots, artifact, version, and the file name of artifact, version, classifier and extension, `jar` by default. |
| Maven.SafeCharsSpelled | src/loader/maven.rs:20-25 | Which characters a coordinate may contain. |
| Maven.PathInjective | src/loader/maven.rs:131-152 | With dot-free extensions: one path if and only if group, artifact, version, classifier and effective extension agree. |
| Maven.DottedExtensionCollides | src/loader/maven.rs:131-152 | Two different coordinates with dotted extension and one path. |
| Maven.SameFileExactly | src/loader/maven.rs:131-152 | Two coordinates without single-dot segments name one file exactly if their groups agree up to doubled and trailing dots, both or neither are absolute, and artifact, version and file-name suffix agree. |
| Maven.DoubledDotCollides | src/loader/maven.rs:131-152 | Groups `a..b` and `a.b`: two path strings, one file. |
| Maven.DotSegmentsCollide | src/loader/maven.rs:20-25 | Two accepted coordinates with different artifacts and one file, through a segment that is a single dot. |
| Maven.PathStaysInside | src/loader/maven.rs:20-25 | No path has a `..` component, and it is absolute exactly when the group starts with a dot. |
| Maven.LibraryPathExactly | src/persistence/paths.rs:112-114 | A library goes below the libraries directory exactly when its group does not start with a dot. |
| Maven.LeadingDotExample | src/persistence/paths.rs:112-114 | `.x:a:1` is accepted and goes to `/x/a/1/a-1.jar`. |
| Maven.OnlyTmpExtensionsClash | src/mojang/cache.rs:22 | A library path can be another one's temporary name only if its extension is `tmp` or ends in `.tmp`. |
| Maven.TmpOfStem | src/mojang/cache.rs:22 | The temporary name of a path with a dot-free extension is the path with `tmp` in its place. |
| Maven.ExtensionsShareTmp | src/mojang/cache.rs:22 | Two libraries that differ only in a dot-free extension have one temporary name. |
| Substitute.ReplaceStep | src/launcher/substitute.rs:118-120 | One replacement fills exactly the placeholders of its variable when nothing else in the text can meet the key. |
| Substitute.PrefixFills | src/launcher/substitute.rs:117-121 | After the first k replacements exactly those variables' placeholders are filled, if no value disturbs a later variable. |
| Substitute.OrderSuffices | src/launcher/substitute.rs:117-121 | For a table in its own order: sequential equals simultaneous if no value disturbs a variable listed later. |
| Substitute.CleanSuffices | src/launcher/substitute.rs:79-84 | With clean values the sequential replacements equal one simultaneous substitution, unknown names left verbatim. |
| Substitute.OverlapShows | src/launcher/substitute.rs:117-121 | Any value that overlaps another placeholder has a template and an order on which the two differ. |
| Substitute.SequentialIsSimultaneousExactly | src/launcher/substitute.rs:79-122 | Sequential equals simultaneous on all well-formed templates in all orders if and only if the values are clean. |
| Substitute.DollarFreeIsClean | src/launcher/substitute.rs:79-84 | Dollar-free values are clean. |
| Substitute.TableIsDistinct | src/launcher/substitute.rs:93-115 | The 21 names of the launcher's table are pairwise different. |
| Substitute.SubstituteVars | src/launcher/substitute.rs:85-122 | The loop over the table computes the sequential replacement. |
| Substitute.SubstituteAll | src/launcher/substitute.rs:125-127 | It does so for each template, in order. |
| Substitute.OnePlaceholder | src/launcher/substitute.rs:117-121 | A placeholder on its own becomes the value listed with its name. |
| Substitute.UnknownPlaceholderStays | src/launcher/substitute.rs:93-121 | A name other than the 21 stays as written. |
| Substitute.PlayerPlaceholders | src/launcher/substitute.rs:93-115 | The four placeholders of the player become these four fields of the context. |
| Substitute.AccountPlaceholders | src/launcher/substitute.rs:93-115 | The client id, the user hash and the user type. |
| Substitute.VersionPlaceholders | src/launcher/substitute.rs:93-115 | The version, its type, the game directory and the assets. |
| Substitute.LibraryPlaceholders | src/launcher/substitute.rs:93-115 | Natives, libraries and the class path with its separator. |
| Substitute.LauncherPlaceholders | src/launcher/substitute.rs:93-115 | The architecture, the launcher and the window size. |
| Substitute.LauncherSubstitutesSimultaneously | src/launcher/substitute.rs:79-122 | The launcher's table with dollar-free values: simultaneous, and the same in every other order. |
| Substitute.LauncherOrderSuffices | src/launcher/substitute.rs:93-121 | The same for the launcher's own table. |
| Substitute.OrderMatters | src/launcher/substitute.rs:82-84 | A player called `${arch}` gets two different results from two orders. |
| Keybinds.KeyspecToWire | src/config/keybinds.rs:306-344 | The printer computes the wire form. |
| Keybinds.KeyspecFromWire | src/config/keybinds.rs:346-372 | The parser computes the specified result, the first bad modifier deciding the error. |
| Keybinds.FirstBadModifierWins | src/config/keybinds.rs:353-361 | Later parts do not change the error of an earlier one. |
| Keybinds.ParseOfCodeName | src/config/keybinds.rs:374-402 | Every printed key name parses to its key: named keys, F0 to F255, ASCII characters. |
| Keybinds.ParsedIsPrintable | src/config/keybinds.rs:346-372 | Whatever parses can be printed and read again. |
| Keybinds.RoundTripExactly | src/config/keybinds.rs:306-402 | Printing then parsing returns the spec if and only if it is printable: named modifiers, a wire name, not plus or non-ASCII, Shift on capitals. |
| Keybinds.WireSpelled | src/config/keybinds.rs:306-344 | The wire form spelled out: `Ctrl+`, `Alt+` and `Shift+` in this order, as far as they are held, then the key. |
| Keybinds.KeyAliases | src/config/keybinds.rs:374-402 | `return`, `escape`, `pgup` and `pgdn` name the keys that `enter`, `esc`, `pageup` and `pagedown` do. |
| Keybinds.ShortAliases | src/config/keybinds.rs:374-402 | So do `del` and `ins`. |
| Keybinds.ModifierAliases | src/config/keybinds.rs:353-361 | The five spellings of the three modifiers, in any case, and that no other part is one. |
| Keybinds.LetterParses | src/config/keybinds.rs:374-402 | Any one ASCII character other than a plus is that key, and a capital brings Shift along. |
| Keybinds.NumbersRead | src/config/keybinds.rs:378-382 | The number behind the `F` is read up to 255, with a plus or leading zeros or not, and is never empty. |
| Keybinds.FunctionKeyParses | src/config/keybinds.rs:374-402 | `F` or `f` and a number up to 255 is that function key. |
| Keybinds.KeyNamesSpelled | src/config/keybinds.rs:318-344 | The printed names of the editing keys, of characters and of function keys. |
| Keybinds.MoveNamesSpelled | src/config/keybinds.rs:318-344 | The printed names of the arrow, paging, home, end, delete and insert keys. |
| Keybinds.ReloadIsStable | src/config/keybinds.rs:306-402 | A binding that loads is the same after saving and loading again, however it was spelled. |
| Keybinds.MatchesIsSameMeaning | src/config/keybinds.rs:84-119 | Matching is equality of a normal form of code and modifiers. |
| Keybinds.MatchesInPlain | src/config/keybinds.rs:84-119 | When an event matches a binding: Control, Alt and the other bits agree, Shift agrees where no capital stands for it, and the codes agree, letters in either case under Control. |
| Keybinds.MatchesIsEquivalence | src/config/keybinds.rs:84-119 | So it is reflexive, symmetric and transitive. |
| Keybinds.ReloadedBindingAcceptsTheSame | src/config/keybinds.rs:84-119 | A saved and reloaded binding accepts exactly the events it accepted. |
| InheritsChain.CollectParentsFromDisk | src/launcher/service.rs:210-231 | The loop terminates on every finite disk, cyclic or not, and computes the walk. |
| InheritsChain.DiskWalkIsTheChain | src/launcher/service.rs:210-231 | The walk returns exactly the ancestors reached before the chain ends or repeats, or the error of the first missing or unreadable one. |
| InheritsChain.CollectInheritsChain | src/install/version_installer.rs:148-188 | At most three requests, none twice, and on success one parent per request. |
| InheritsChain.InstallWalkExactly | src/install/version_installer.rs:148-188 | How the walk ends for every chain of parents it meets: with the map of that chain, the depth error behind the third, the cycle error for one met before, the error of the missing or failing one otherwise. |
| InheritsChain.LaunchWalksWhatInstallStored | src/launcher/service.rs:201-209 | Once the collected JSONs are on disk the launch-time walk returns the same map. |
| InheritsChain.ResolveExactly | src/mojang/inherits.rs:116-148 | How the resolver ends on any map of parents: the child and its parents in order when there are at most two; a cycle, a missing parent or the depth error otherwise, with the id that stopped it. |
| InheritsChain.ResolverAcceptsExactly | src/mojang/inherits.rs:116-148 | After a successful install-time walk the resolver accepts exactly chains of at most two parents that do not return to the child. What it returns is the child and then, behind each version, the one it inherits from. |
| InheritsChain.ThreeParentsExample | src/mojang/inherits.rs:128-141 | Three listed parents: collected at install time, walked at launch time, rejected by the resolver. |
| Accounts.TiersRefineOneMap | src/auth/store.rs:64-148 | Store, load and delete over keyring and encrypted file are update, lookup and removal on one map. |
| Accounts.UpsertKeeps | src/auth/service.rs:168-183 | Adding or replacing an account keeps ids unique and at most one account active. |
| Accounts.WithoutKeeps | src/auth/service.rs:207-212 | Removing one does too. |
| Accounts.ApplyKeepsSound | src/auth/service.rs:160-293 | Every operation, whichever write fails, keeps ids unique, at most one account active and the tiers tidy. |
| Accounts.TokensAfter | src/auth/service.rs:160-293 | Which token each operation leaves: one that stores sets its account's entry to the token it was given, a refresh to the rotated one; a removal takes out its account's entry when it succeeds; nothing else changes. |
| Accounts.LoadedIsLatest | src/auth/service.rs:160-293 | After any run from an empty machine a loaded token is the one the latest store for that account was given, with no successful removal since. |
| Accounts.UpsertInPlain | src/auth/service.rs:168-183 | A known account is replaced in place and keeps its active mark, a new one comes last and is active exactly if it is the first. |
| Accounts.TouchInPlain | src/auth/service.rs:281-290 | A refresh changes name and time of the account's entry only. |
| Accounts.WithoutSplits | src/auth/service.rs:207-212 | Removing an account takes out its entry and keeps the others in order. |
| Accounts.LoadableExactly | src/auth/service.rs:205-214 | An operation keeps every listed account's token loadable if and only if it is not a removal that deleted the token of a listed account and failed to save the list. |
| Accounts.RunsStaySound | src/auth/service.rs:160-293 | Every run from an empty machine is sound, and without such removals every listed account has a loadable token. |
| Accounts.StrandedExactly | src/auth/service.rs:205-214 | After any run from an empty machine a listed account cannot load its token if and only if a removal of it was cut in half and nothing stored a token for it since. |
| Accounts.StrandedAccount | src/auth/service.rs:205-214 | The failing run: two accounts, a half removal, a successful activation, and a listed account without a token. |
| Accounts.AccountService.constructor | src/auth/service.rs:61-80 | A service over empty storage. |
| Accounts.AccountService.StoreRefreshToken | src/auth/store.rs:64-92 | Keyring first, encrypted file otherwise; on the one map of tokens it is an update when it succeeds and nothing otherwise. |
| Accounts.AccountService.LoadRefreshToken | src/auth/store.rs:96-120 | Keyring first, then the file, with its errors; on the one map it is a lookup. |
| Accounts.AccountService.DeleteRefreshToken | src/auth/store.rs:124-148 | Both tiers, the keyring best effort; on the one map it is a removal when it succeeds and nothing otherwise. |
| Accounts.AccountService.AddAccount | src/auth/service.rs:160-189 | Token first, then the list, first account activated, known account replaced in place. The token map gains exactly this token. |
| Accounts.AccountService.RemoveAccount | src/auth/service.rs:205-214 | Token deleted first, then the list filtered and saved. The token map loses exactly this account. |
| Accounts.AccountService.ActivateAccount | src/auth/service.rs:218-234 | Exactly this account active, or not found and nothing changed. No token changes. |
| Accounts.AccountService.ResolveTokensForLaunch | src/auth/service.rs:267-293 | The stored token is exchanged, the new one stored, then the list entry refreshed. The token map then holds the rotated token in place of the spent one. |
| ModpackDownload.MoveKeepsTask | src/modpack/download.rs:240-326 | A task step keeps: a request only goes out after its URL passed the allowlist, and a row is built from its own file. |
| ModpackDownload.StepKeepsInv | src/modpack/download.rs:194-371 | Every step of every interleaving keeps the invariant. |
| ModpackDownload.OnlyAllowlistedRequests | src/modpack/download.rs:268-271 | No run ever sends a request to a host outside the allowlist or holds more than six permits. |
| ModpackDownload.AllowlistSpelled | src/modpack/download.rs:41-102 | A URL is allowed exactly if its host is one of the seven spelled out; otherwise the error carries the host, or which of the two ways it has none. |
| ModpackDownload.ForClientExactly | src/modpack/parse.rs:176-181 | Only a file marked unsupported on the client is dropped; optional and unmarked ones are kept. |
| ModpackDownload.FilterInOrder | src/modpack/download.rs:114-119 | Filtering a list is filtering its parts, in order. |
| ModpackDownload.SuccessHasOneRowPerFile | src/modpack/download.rs:329-370 | On success the rows are those of the client files in some order that visits each exactly once; each was served by one of the file's URLs after requests to it and to every earlier one, all of them allowed. |
| ModpackDownload.RowFields | src/modpack/download.rs:139-165 | The row repeats the hash and the fetched size, and its id and label are the two prefixes with the first 16 and 8 characters of the hash. |
| ModpackDownload.ProgressIsHonest | src/modpack/download.rs:340-352 | The join loop's percentage never falls and is 100 exactly when every file is done. |
| ModpackDownload.SucceedsExactly | src/modpack/download.rs:194-371 | Some run succeeds if and only if every client file has a first URL and that one is on an allowed host. |
| ModpackDownload.ErrorNamesAReason | src/modpack/download.rs:240-369 | The error of a failed download has its reason: Cancelled only after the token fired; a disallowed source is the first URL off the allowlist of a file whose earlier URLs were all tried; a mismatch comes from a requested file; a network error from a file all of whose URLs were tried, or that has none. |
| ModpackDownload.CancelledEndsCancelled | src/modpack/download.rs:333-338 | Once the token fires before everything is joined, nothing more is joined and the only end is Cancelled. |
| ModpackDownload.LateTasksStaySilent | src/modpack/download.rs:240-249 | A task that had not looked at the token when it fired never sends a request. |
| Overrides.PassLeavesLast | src/modpack/overrides.rs:84-93 | One pass leaves at a path the last entry written to it, or what was there. |
| Overrides.WhoWins | src/modpack/overrides.rs:83-105 | The last client override wins, else the last override, else the old file. |
| Overrides.ApplyIsIdempotent | src/modpack/overrides.rs:83-105 | Extracting the same archive twice equals extracting it once. |
| Overrides.ExtractionStaysInside | src/util/safe_zip.rs:32-42 | No entry name, however spelled, is written outside the directory. |
| Overrides.TargetSpelled | src/modpack/overrides.rs:83-147 | A file below `overrides/` or `client-overrides/` goes to the rest of its name. |
| Overrides.SkippedExactly | src/modpack/overrides.rs:120-147 | What is skipped: names outside the prefix, symbolic links, directory stubs, absolute paths and paths with a leading `.` or any `..`. |
| Overrides.InstanceDir.constructor | src/modpack/overrides.rs:75-75 | An instance directory with its files. |
| Overrides.InstanceDir.ExtractOneEntry | src/modpack/overrides.rs:120-169 | One file written and counted, or the entry skipped, or an I/O error that leaves no file or the first bytes of it. |
| Overrides.InstanceDir.OnePass | src/modpack/overrides.rs:84-93 | The loop computes the pass and counts its written entries; after an error the tree is the pass up to the first entry that could not be written, with what was left of that one. |
| Overrides.InstanceDir.ApplyOverrides | src/modpack/overrides.rs:62-112 | Cancelled before anything is written; or both passes in order with the sum of their counts; or stopped in one of them at the first entry that could not be written. |
| MavenMetadata.SkipTag | src/loader/maven_metadata.rs:26-40 | Jumping from a tag to the end of its text skips no other tag. |
| MavenMetadata.TagSpelled | src/loader/maven_metadata.rs:23-26 | A tag opens exactly where the text reads `<version>`. |
| MavenMetadata.TrimExactly | src/loader/maven_metadata.rs:29-37 | Trimming removes white space at both ends and stops at the first other character. |
| MavenMetadata.SpacesSpelled | src/loader/maven_metadata.rs:29-37 | Which characters are white space, by code point. |
| MavenMetadata.ExtractVersions | src/loader/maven_metadata.rs:19-46 | The skipping scan returns the trimmed non-empty texts after every `<version>` in order. |
| MavenMetadata.ScanFindsRendered | src/loader/maven_metadata.rs:19-46 | Rendered versions are found in order behind any prefix. |
| MavenMetadata.ScanRecoversVersions | src/loader/maven_metadata.rs:15-18 | Any list of trimmed, non-empty, `<`-free versions is recovered from its rendered document. |
| Slug.CollapseDashes | src/instance/slug.rs:36-48 | The loop collapses every run of dashes to one. |
| Slug.MakeSlug | src/instance/slug.rs:22-61 | The slug of a name, always neat. |
| Slug.SlugIsItsWords | src/instance/slug.rs:22-61 | Before the cut the slug is the name's words of letters and digits, lower-cased and joined by single dashes, or `instance` when there are none. |
| Slug.CleanedSpelled | src/instance/slug.rs:22-35 | Cleaning works character by character: white space becomes a dash, ASCII letters, digits and dashes stay, everything else goes. |
| Slug.SlugIsNeat | src/instance/slug.rs:22-61 | Non-empty, at most 40 characters of [a-z0-9-], no leading and no doubled dash. |
| Slug.SlugifyNeat | src/instance/slug.rs:22-61 | Of a neat string a pass removes at most one trailing dash and nothing else. |
| Slug.TrailingDashExactly | src/instance/slug.rs:49-56 | A slug ends in a dash exactly when the trimmed name is longer than 40 characters and its fortieth is a dash. |
| Slug.SlugifyTwice | src/instance/slug.rs:22-61 | A slug is a fixed point exactly when its name was not cut behind a dash, and two applications always reach one. |
| Slug.TrailingDashExample | src/instance/slug.rs:49-56 | Thirty-nine letters, a blank and a letter give the thirty-nine letters and a dash. |
| Slug.SlugSpellsTheName | src/instance/slug.rs:22-61 | The letters and digits of a slug are those of the lower-cased name in order, all of them unless it was cut at 40 characters; a name without any gives `instance`. |
| Slug.CandidateInjective | src/instance/slug.rs:75-78 | Different numbers give different candidates. |
| Slug.CandidateSpelled | src/instance/slug.rs:68-90 | The first candidate is the slug itself, the n-th one the slug, a dash and n in decimal. |
| Slug.SomeCandidateIsFree | src/instance/slug.rs:75-89 | With at most 9998 names in use one of the first 9999 candidates is free. |
| Slug.UniqueSlug | src/instance/slug.rs:68-90 | The least free candidate; the safety valve is out of reach while at most 9998 names are in use. |
| LogRing.Ring.constructor | src/loader/installer_subprocess.rs:99-100 | An empty ring. |
| LogRing.Ring.Push | src/launcher/spawn.rs:192-196 | The ring is always the last 200 lines of everything pushed. |
| LogRing.RingIsTheEnd | src/launcher/spawn.rs:192-196 | The ring holds the newest 200 lines, or all of them while there are fewer, in order. |
| LogRing.StepKeepsRingInv | src/launcher/spawn.rs:171-199 | Any step of either drain keeps: the history merges both pipes in order and the ring is its tail. |
| LogRing.StepKeepsLog | src/loader/installer_subprocess.rs:244-252 | Under the lock every step also keeps the log a merge of whole lines. |
| LogRing.InstallerDrains | src/loader/installer_subprocess.rs:234-262 | For every schedule: ring, history and log are as promised at every point. |
| LogRing.InstallerLogIsComplete | src/loader/installer_subprocess.rs:234-262 | When both pipes are drained, the log is a merge of all their lines, every one whole. |
| LogRing.GameDrains | src/launcher/spawn.rs:171-199 | The game's drains keep the same ring and history. |
| LogRing.GameLogWholeExactly | src/launcher/spawn.rs:187-189 | Run by run: the log keeps its lines apart exactly in the runs that one lock would have allowed. |
| LogRing.GameLogSafeExactly | src/launcher/spawn.rs:171-199 | The log is free of glued lines in every schedule exactly for games that write to at most one pipe. |
| LogRing.GameLogCanGlue | src/launcher/spawn.rs:187-189 | For every game that writes to both pipes, a run that glues its first two lines. |
| Decimals.DecSpelled | src/instance/slug.rs:78-78 | A number is printed in decimal, digit by digit, without leading zeros. |
| Decimals.DigitsSpelled | src/config/keybinds.rs:379-382 | A decimal digit is one of the ten characters 0 to 9. |
| Strings.SplitNAgrees | src/loader/maven.rs:64-66 | Cutting at most n times agrees with the full split when there are few enough parts, and otherwise leaves a separator in the last part. |

## Left out

- HTTP, OAuth, process spawning, the terminal interface and icon decoding are input and output; each is a parameter or absent.
- Hash functions, AES-GCM and key derivation are uninterpreted; of the cipher only decrypt-after-encrypt is used.
- JSON, TOML and ZIP are values, not bytes: parsing them, floats and duplicate keys are not modelled.
- Network and disk answer the same question the same way within one call; a server that changes its mind between two requests is only modelled where the answer is a step of a run.
- The Forge and NeoForge pipeline depends on an external installer and deliberately skips missing libraries.
- Removing a loader, or two instances installing the same version, at the same time as an install: one pipeline at a time is modelled.
- A write that an aborted task still has in flight on a blocking thread is not modelled; an aborted pool makes no further step.
- DepResolve.ResolveRequiredDeps: Minecraft version and loader list are fixed parameters of the catalogue, and only the fields of a version that the resolver reads are kept; the byte total wraps as in a release build, where a debug build would panic.
- AtomicWrites.SafeExactlyWithoutClash: a query for an existing file always answers (in the code a failing query counts as absent); names are flat strings; creating parent directories, a file where a directory is needed and two spellings of one path are not modelled.
- LoaderInstall.InstallOutcome: the version JSON's own atomic write is one step, and reading the old manifest before rewriting it is not modelled.
- JreInstall.FinalIsComplete: permissions and the manifest cache are left out, links are made as on Unix, and two manifest keys that spell the same path differently are not considered.
- Translate.RecordedUrlIsTheDownloadUrl: URLs are strings; whether two different ones serve the same jar is outside the model.
- Maven.SameFileExactly: Unix path components; coordinates with a single-dot artifact or version are left to the counterexample.
- AtomicWrites.DoomExactlyWithSharedTmp: a pool that reuses existing files is taken without clashing names and with agreeing hashes; with a clash it can lose files anyway.
- Substitute.LauncherOrderSuffices: one direction; in a fixed order a later replacement can undo an earlier disturbance.
- Keybinds.RoundTripExactly: key codes without a wire name (media and modifier keys) are one kind of value, since none of them can be read back.
- InheritsChain.ResolverAcceptsExactly: the merge of libraries and arguments along the chain, and the required fields demanded after it, are not modelled.
- Accounts.RunsStaySound: whether the keyring works does not change during a run; timestamps are opaque numbers.
- ModpackDownload.OnlyAllowlistedRequests: the debug-build exemption for loopback addresses, redirects followed by the HTTP client, and the per-chunk progress events are not modelled.
- ModpackDownload.SuccessHasOneRowPerFile: of a row only the fields taken from the hash and the size are modelled, not the names taken from the path, the time stamp and the fixed flags.
- Overrides.InstanceDir.ExtractOneEntry: permissions, parent directories and archives that cannot be read are not modelled.
- MavenMetadata.ExtractVersions: texts are characters rather than UTF-8 bytes.
- Slug.SlugIsNeat: Unicode lower-casing and white space are parameters with the laws stated in `UnicodeLaw`.
- Slug.UniqueSlug: a directory that cannot be examined counts as free in the code; the model takes the set of names in use.
- LogRing.InstallerDrains: failing writes, which the installer ignores and the game's drain stops at, the runtime's own write buffering, and the mark of its stream in front of each line are not modelled.
- Launch-argument files, platform keys, palette and colour names and other lookup tables would only add easy members.
