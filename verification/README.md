# jjlab, modelled and proved in Dafny

jjlab is a Git/jj forge with a package registry in the same process. This project models the parts of it that
carry an argument of their own, in the form the code has (loops over mutable state as methods, objects as
classes, arithmetic as functions), and proves what each part is for. Every method is tied by its contract to a
specification function or property, and the lemmas below say what that specification guarantees.

- **Ingest** (`CommitDag`, `IngestOrder`, `IngestTranslate`): the depth-first walk that linearises a Git history,
  and the loop that translates it into native commits under an anchor table. Main results: the walk lists exactly
  the reachable commits, once each, parents first, and fails exactly when one is missing; every native commit's
  parents are the images of its Git parents; later ingests leave earlier anchors alone and write only new commits.
- **Blobs, artifacts, collection** (`BlobMachine`, `ArtifactStore`, `BlobGc`): the write-verify-rename protocol as a
  step machine with any number of writers, deletes, I/O failures and crashes; the artifact table with its
  normalised key; mark and sweep. Main results: every listed blob hashes to its name in every reachable state,
  bytes under a name never change, cached hashes agree with the bytes; every listed package can be fetched; a
  collection keeps exactly what some listed artifact names.
- **Metadata tables** (`MetaTables`, `RepoRemoval`, `DeleteStatements`, `Renames`, `OrgRename`, `MrNumbers`, `MetaDb`,
  `WorkflowIds`): all tables, foreign keys and cascades of the schema, the writers, repository removal statement by
  statement, organisation and repository rename. Main results: every run of the writers keeps every key, the merge
  requests of a repository are numbered exactly 1 to k, removal succeeds exactly when no other repository's conflict
  names one of its changes and then removes exactly its rows if and only if no other repository's run is filed under
  one of its workflows (dispatches check that; pushes do not), renames are bijective and undone by renaming back.
- **CI queue** (`RunQueue`, `QueueSteps`): enqueue, the capped tick, job completion in any order; then the same one
  statement at a time, with any number of enqueues in flight. Main results: id order, at most the cap per tick, each
  run once, the exact number of ticks a run waits, and exactly which runs change a status that was already final.
- **History walks** (`CommitLog`): the stack-and-seen walk lists exactly the ancestors; pages tile the log.
- **Diffs** (`UnifiedDiff`, `DiffParser`, `PatchRoundTrip`, `PatchContents`): the server's patch printer and the web
  client's parser. Main result: parsing a printed patch gives back every file, hunk, line and line number.
- **Small algorithms**: `CivilTime` (a bijection onto the Gregorian calendar of section 5.7 and Appendix C of
  RFC 3339), `Glob` (greedy matching decides the pattern's language), `Protobuf` (decoded by a reader written from the
  encoding guide's "Base 128 Varints" and "Message Structure"), `Multipart` and `FormFields` (against the body syntax of
  section 5.1.1 of RFC 2046), `GoModule` (spellings of one module share a key), `VersionCompare` with `Sorting` (section 11 of
  Semantic Versioning 2.0.0), `LaneLayout` (reserved lanes are honoured).

Values a component takes from elsewhere are parameters: hash functions (SHA-256 text is assumed lower-case hex and
collision-free), the native backend (its commit ids are assumed to differ for different commits, and the text of an
id to read back as that id; `SoundBackendExists` shows both can hold), the version parser, the outcome of a CI job, the order in which
jobs end, the row id an insert gets. `Sorting` specifies a stable sort and shows it is unique; the library sort is
taken to be one.

Where the code and its own words differ, the model follows the code:

- `MaxConcurrency`: the comment says a cap of 0 disables the cap; the code falls back to 2
  (`crates/git/src/scheduler.rs:27-34`).
- The ingest outcome's `conflicts` counts conflicting files, not commits (`crates/git/src/ingest.rs:143`).
- `set_anchor` is described as returning whether the row is new; it returns nothing (`crates/core/src/db.rs:743-751`).
- `normalize_module` decodes one level of percent-encoding only, so a doubly encoded path with a slash gets another
  key (`TwicePercentEncoded`).
- `upsert_workflow` returns the connection's last insert id, which an update does not set, so a second push of a
  workflow is filed under another id (`ReturnedId`, `SecondPush`). If that id is another repository's workflow, the run
  goes when that repository is removed (`ForeignRunRemoved`).
- `rename_org` measures the old name in bytes and cuts in characters; the two agree for ASCII names, which is all the
  handlers let through (`OrgRenameNamespaced`, `IdsCut`).
- `delete_repo` is not one transaction; when a conflict of another repository names a change of this one it stops
  half-way (`ChangesGo`, `SharedChangeBlocks`).
- `enqueue_run` is several statements, and the scheduler reads its list before it executes it; so a run can be skipped
  after it has succeeded, or succeed after it was skipped (`TicksInsideEnqueue`, `ChangedExactly`, `SkippedAfterSuccess`,
  `SuccessAfterSkipped`), and jobs inserted after the execution stay queued (`JobsStayQueued`).
- `try_parse` promises to accept missing numbers and pre-releases; together they are never accepted, because the missing
  numbers are put behind the suffix (`SuffixNeedsThree`).
- the multipart search looks for the field name anywhere in a part's headers, so a part whose file name is the field
  name is taken for the field (`PartCarries`).

`dafny verify dfyconfig.toml` checks everything.

## Model

| member | source | states |
|---|---|---|
| IngestOrder.PushCommit | crates/git/src/ingest.rs:248-318 | from any consistent walk state, the recursive push ends, appends the unlisted commits below `id` after all their parents, leaves the recursion stack as it was, and fails only if a commit below `id` is missing |
| IngestOrder.ReadGitCommits | crates/git/src/ingest.rs:199-227 | succeeds exactly when no commit reachable from a head is missing; then lists each reachable commit exactly once, nothing else, every parent before its children |
| IngestOrder.OrderIsAcyclic | crates/git/src/ingest.rs:248-318 | such a list exists only for acyclic histories: a listed commit is never its own proper ancestor |
| IngestTranslate.ParentsAllKnown | crates/git/src/ingest.rs:87-96 | when the parents were walked before, every lookup in the walk's map succeeds and gives the parents' images in order |
| IngestTranslate.CollectParents | crates/git/src/ingest.rs:87-93 | the loop over the parents collects the known ones in order |
| IngestTranslate.StepFrame | crates/git/src/ingest.rs:62-160 | one turn keeps all translated rows and known change-ids, adds only this commit's row, and counts it only if it is new |
| IngestTranslate.RunChooses | crates/git/src/ingest.rs:80-84 | a completed loop leaves each new commit's row with the anchored change-id where there was one, and with the commit's own where there was none |
| IngestTranslate.RunTakesChangeId | crates/git/src/ingest.rs:80-130 | and its native commit is stored under that change-id |
| IngestTranslate.ConflictTotalCounts | crates/git/src/ingest.rs:143 | the conflict count is the number of conflicting files, that is of pairs of a new commit and a file |
| IngestTranslate.StepMirrors | crates/git/src/ingest.rs:80-130 | the commit written by a turn has exactly the images of the Git parents as parents (the root alone for a parentless commit), the anchored or own change-id, and the message |
| IngestTranslate.StepFaithful | crates/git/src/ingest.rs:62-160 | a turn keeps every translated row naming a stored commit that mirrors its Git commit |
| IngestTranslate.RunKeeps | crates/git/src/ingest.rs:62-161 | the whole loop, also when it stops early, keeps earlier anchors unchanged and all translated rows faithful |
| IngestTranslate.RunTranslates | crates/git/src/ingest.rs:62-161 | a completed loop leaves every walked commit translated |
| IngestTranslate.RunFails | crates/git/src/ingest.rs:80-84 | the loop stops with an error exactly when some commit still to be translated has an unreadable anchored change-id |
| IngestTranslate.RunCounts | crates/git/src/ingest.rs:142 | the commit count is exactly the number of walked commits not translated before |
| IngestTranslate.RunCountsConflicts | crates/git/src/ingest.rs:143 | the conflict count adds up the conflicting files of exactly those commits |
| IngestTranslate.GrownGraphFaithful | crates/git/src/ingest.rs:62-161 | rows stay faithful when the repository has gained commits |
| IngestTranslate.ReingestIdle | crates/git/src/ingest.rs:69-78 | ingesting the same commits again writes no commit and changes no table |
| IngestTranslate.RepoTables.LookupAnchor | crates/core/src/db.rs:765-786 | the anchor row of a sha, or none |
| IngestTranslate.RepoTables.SetAnchor | crates/core/src/db.rs:745-762 | sets that one row |
| IngestTranslate.RepoTables.Translate | crates/git/src/ingest.rs:62-161 | the imperative loop computes exactly the specified run, rows set before an error included |
| IngestTranslate.RepoTables.IngestBareRepo | crates/git/src/ingest.rs:33-161 | one ingest: tables stay faithful, earlier anchors stay, the error cases exactly, every reachable commit translated, new ones under their anchored or else their own change-id, the counts are the numbers of new commits and of their conflicting files, nothing changes when there are none; also when Git has pruned commits translated before |
| IngestTranslate.SoundBackendExists | crates/git/src/ingest.rs:108-130 | the assumptions made of the native backend can be met |
| BlobMachine.StepKeeps | crates/pkglab/pkglab-core/src/blob.rs:77-171 | every action of every writer, remover or crash keeps the protocol invariant |
| BlobMachine.ListedBlobsMatch | crates/pkglab/pkglab-core/src/blob.rs:77-191 | in every reachable state each listed name holds bytes that hash to it |
| BlobMachine.BlobBytesNeverChange | crates/pkglab/pkglab-core/src/blob.rs:113-148 | a blob has the same bytes in all states of a run in which it is there |
| BlobMachine.HashesAgreeWithBytes | crates/pkglab/pkglab-core/src/blob.rs:150-162 | the hashes reported for a present blob are those of its bytes, whatever happens between reading the sidecar and the blob |
| BlobMachine.AnnouncedExact | crates/pkglab/pkglab-core/src/blob.rs:193-203 | a digest is refused exactly when one side of its first colon is empty, and fits exactly the bytes whose SHA-256 text it is or, after a colon, spells in either case |
| BlobMachine.PairFits | crates/pkglab/pkglab-core/src/blob.rs:193-203 | so `algo:hex` is refused exactly when a side is empty, and else fits by its hex alone |
| BlobMachine.BlobsAreListed | crates/pkglab/pkglab-core/src/blob.rs:173-191 | a blob that is there has the bytes its digest fits, and is listed unless its name starts with a dot |
| BlobMachine.PutOfPair | crates/pkglab/pkglab-core/src/blob.rs:77-148 | for `algo:hex` each of the four answers of an undisturbed call exactly, by the two sides, the directory and the bytes |
| BlobMachine.PutOfBare | crates/pkglab/pkglab-core/src/blob.rs:77-148 | and for a digest without a colon |
| BlobMachine.PutCanonical | crates/pkglab/pkglab-core/src/blob.rs:77-148 | `sha256:` and the SHA-256 text of the bytes is stored where nothing has that name |
| BlobMachine.PutResultsAreRight | crates/pkglab/pkglab-core/src/blob.rs:77-148 | an invalid digest is reported exactly, a mismatch and a new blob only when they are the case, and an existing blob only when something had the destination's name at some state before |
| BlobMachine.RenamePublishes | crates/pkglab/pkglab-core/src/blob.rs:130-135 | the rename makes exactly the complete input visible under its digest and touches no other blob |
| BlobMachine.NamesAreBlobNames | crates/pkglab/pkglab-core/src/blob.rs:193-203 | a digest that some content matches is never a sidecar or temp file name |
| BlobMachine.BlobDirectory.PutIfAbsent | crates/pkglab/pkglab-core/src/blob.rs:77-148 | one undisturbed call is a schedule of the machine; its answer (refused digest, name taken, bytes that do not fit, stored) and the directory afterwards, in every case |
| BlobMachine.BlobDirectory.Stream | crates/pkglab/pkglab-core/src/blob.rs:94-119 | chunked reading writes exactly the source to the temp file |
| BlobMachine.BlobDirectory.Publish | crates/pkglab/pkglab-core/src/blob.rs:135-147 | the temp file becomes the blob and the sidecar holds its hashes |
| ArtifactStore.SqliteArtifactStore.Put | crates/pkglab/pkglab-core/src/store.rs:88-111 | stores the artifact under its own format, or under `oci` when it has none, and keeps rows and keys in agreement |
| ArtifactStore.SqliteArtifactStore.Get | crates/pkglab/pkglab-core/src/store.rs:113-130 | the artifact under a key, or none |
| ArtifactStore.SqliteArtifactStore.Delete | crates/pkglab/pkglab-core/src/store.rs:132-145 | removes exactly that key |
| ArtifactStore.SqliteArtifactStore.DeleteRepo | crates/pkglab/pkglab-core/src/store.rs:147-152 | removes exactly the repository's artifacts and counts them |
| ArtifactStore.AddRowGroups | crates/pkglab/pkglab-core/src/store.rs:217-255 | adding a row to the grouping keeps it exact for the rows read, despite empty formats |
| ArtifactStore.AddRowPulls | crates/pkglab/pkglab-core/src/store.rs:233-255 | a group counts as pulled exactly when some row of it is |
| ArtifactStore.AddRowSources | crates/pkglab/pkglab-core/src/store.rs:233-255 | a group's source is that of one of its rows |
| ArtifactStore.SqliteArtifactStore.ListPackages | crates/pkglab/pkglab-core/src/store.rs:205-273 | a version is listed exactly when its row is stored under the listed key with non-empty repository and version, so every listed package can be fetched; its source is that of one of its rows, or `push` for an empty one |
| BlobGc.CanonicalHex | crates/pkglab/pkglab-common/src/artifact.rs:85-87 | for `sha256:hex` names the bare hex is what follows the prefix |
| BlobGc.HexExact | crates/pkglab/pkglab-common/src/artifact.rs:85-87 | the bare hex of any digest is all of it without a colon, else what follows the first one |
| BlobGc.NamedIsKept | crates/pkglab/pkglab-core/src/gc.rs:14-39 | a blob that a listed artifact names in full, or by its bare hex after any algorithm name, is kept |
| BlobGc.KeptIsNamed | crates/pkglab/pkglab-core/src/gc.rs:14-39 | and every kept blob is named so, perhaps with the SHA-256 prefix |
| BlobGc.CanonicalKept | crates/pkglab/pkglab-core/src/gc.rs:14-39 | with such names a blob is kept exactly when some artifact with non-empty repository and version names it |
| BlobGc.SecondPassIdle | crates/pkglab/pkglab-core/src/gc.rs:30-40 | a second pass removes nothing |
| BlobGc.Mark | crates/pkglab/pkglab-core/src/gc.rs:14-28 | the marked names are exactly those of all listed versions of all listed packages |
| BlobGc.Sweep | crates/pkglab/pkglab-core/src/gc.rs:30-40 | a sweep leaves exactly the marked and the unremovable names and counts the removed |
| BlobGc.Run | crates/pkglab/pkglab-core/src/gc.rs:10-41 | a pass leaves exactly the kept and the unremovable blobs and returns the number removed |
| CivilTime.CivilIsValid | crates/pkglab/pkglab-core/src/auth.rs:246-256 | every day count gives a date of the Gregorian calendar, and the inverse returns the count |
| CivilTime.DaysOfDate | crates/pkglab/pkglab-core/src/auth.rs:246-256 | every calendar date is the image of its day count |
| CivilTime.CivilSteps | crates/pkglab/pkglab-core/src/auth.rs:246-256 | day 0 is 1970-01-01 and day n + 1 is the calendar successor of day n |
| CivilTime.CivilMonotone | crates/pkglab/pkglab-core/src/auth.rs:246-256 | later day counts are later dates |
| CivilTime.YearNotBefore | crates/pkglab/pkglab-core/src/auth.rs:242-256 | a clock value is never before the year 1970 |
| CivilTime.TimestampReads | crates/pkglab/pkglab-core/src/auth.rs:239-258 | up to the end of the year 9999 the digits of a timestamp, read at the places RFC 3339 gives them, are those of the clock value |
| CivilTime.TimestampOrder | crates/pkglab/pkglab-core/src/auth.rs:239-258 | up to the end of the year 9999, string order of the timestamps is time order |
| CivilTime.TimestampOrderEnds | crates/pkglab/pkglab-core/src/auth.rs:239-258 | and no further: the first day of the year 10000 sorts before the last of 9999 |
| Glob.PartsDenote | crates/pkglab/pkglab-common/src/globutil.rs:12-15 | splitting at the stars keeps the pattern's language |
| Glob.LeftmostSuffices | crates/pkglab/pkglab-common/src/globutil.rs:23-31 | taking the leftmost occurrence of a segment loses no match |
| Glob.LastFits | crates/pkglab/pkglab-common/src/globutil.rs:32-37 | a found last segment matches the rest exactly when the string ends with it |
| Glob.Find | crates/pkglab/pkglab-common/src/globutil.rs:27 | the first occurrence at or after a position, or none |
| Glob.GlobMatch | crates/pkglab/pkglab-common/src/globutil.rs:6-39 | true exactly when the string is in the pattern's language, or the pattern is empty |
| Protobuf.VarintReads | crates/pkglab/pkglab-hex/src/lib.rs:64-76 | a varint followed by anything decodes to the number and what follows |
| Protobuf.VarintLength | crates/pkglab/pkglab-hex/src/lib.rs:64-76 | it takes at most k bytes exactly for numbers below 128 to the k |
| Protobuf.VarintAtMostTen | crates/pkglab/pkglab-hex/src/lib.rs:64-76 | a 64-bit number takes one to ten bytes |
| Protobuf.VarintGroups | crates/pkglab/pkglab-hex/src/lib.rs:64-76 | its bytes are the groups of seven bits, lowest first, with the top bit on all but the last |
| Protobuf.GuideExamples | crates/pkglab/pkglab-hex/src/lib.rs:64-95 | the encoding guide's own examples |
| Protobuf.TagOf | crates/pkglab/pkglab-hex/src/lib.rs:78-80 | a field opens with eight times its number plus its wire type |
| Protobuf.AsU64Congruent | crates/pkglab/pkglab-hex/src/lib.rs:92-95 | a signed value is written modulo 2 to the 64 |
| Protobuf.VarintMinimal | crates/pkglab/pkglab-hex/src/lib.rs:64-76 | no shorter byte string decodes to the number |
| Protobuf.FieldReads | crates/pkglab/pkglab-hex/src/lib.rs:78-95 | a field followed by anything decodes to itself |
| Protobuf.FieldsRead | crates/pkglab/pkglab-hex/src/lib.rs:78-95 | any field sequence followed by any suffix decodes to the same fields and the suffix |
| Protobuf.MessageReads | crates/pkglab/pkglab-hex/src/lib.rs:78-95 | a message decodes to its fields |
| Protobuf.VersionsFields | crates/pkglab/pkglab-hex/src/lib.rs:199-213 | the versions payload is the registry's name, then one message a package with its name and versions, under these field numbers |
| Protobuf.VersionsRoundTrip | crates/pkglab/pkglab-hex/src/lib.rs:199-213 | the versions payload decodes to the same packages with the same versions |
| Protobuf.NamesRoundTrip | crates/pkglab/pkglab-hex/src/lib.rs:179-197 | the names payload decodes to the same names, each with the stamped time |
| Protobuf.EnvelopeRoundTrip | crates/pkglab/pkglab-hex/src/lib.rs:97-104 | the signed envelope decodes to exactly payload and signature |
| Protobuf.PbVarint | crates/pkglab/pkglab-hex/src/lib.rs:64-76 | the shifting loop appends the varint |
| Protobuf.PbTag | crates/pkglab/pkglab-hex/src/lib.rs:78-80 | appends field number and wire type as one varint |
| Protobuf.PbBytes | crates/pkglab/pkglab-hex/src/lib.rs:82-90 | appends a length-delimited field |
| Protobuf.PbInt64 | crates/pkglab/pkglab-hex/src/lib.rs:92-95 | appends a varint field, negative values as two's complement |
| Protobuf.EncodeName | crates/pkglab/pkglab-hex/src/lib.rs:187-194 | builds one name message with its time |
| Protobuf.Names | crates/pkglab/pkglab-hex/src/lib.rs:179-197 | builds the names payload |
| Protobuf.EncodePackage | crates/pkglab/pkglab-hex/src/lib.rs:204-210 | builds one package message |
| Protobuf.Versions | crates/pkglab/pkglab-hex/src/lib.rs:199-213 | builds the versions payload |
| Protobuf.SignedEnvelope | crates/pkglab/pkglab-hex/src/lib.rs:97-104 | builds the envelope, which decodes to its two fields |
| Multipart.BlankFound | crates/pkglab/pkglab-common/src/multipart.rs:39-42 | the search for the blank line stops right after the header block |
| Multipart.DelimiterFound | crates/pkglab/pkglab-common/src/multipart.rs:43-45 | the search for the delimiter stops at the end of the content |
| Multipart.EncodedFieldExtracted | crates/pkglab/pkglab-common/src/multipart.rs:27-58 | from an encoded body, extraction gives the first part whose headers carry the field, trailing CR and LF stripped, and none if no part does |
| FormFields.HeaderFound | crates/pkglab/pkglab-common/src/multipart.rs:98-106 | the header search finds `name=` and the field, quoted or bare, anywhere in the headers |
| FormFields.PartCarries | crates/pkglab/pkglab-common/src/multipart.rs:98-106 | the header search takes a part for the field exactly when the part declares that name or a file of that name, or the field name is empty |
| FormFields.CarryingIsNamed | crates/pkglab/pkglab-common/src/multipart.rs:98-106 | so with no file called like the field, the first part taken is the first that declares the name |
| FormFields.NamedFieldExtracted | crates/pkglab/pkglab-common/src/multipart.rs:27-58 | and from an encoded form extraction gives that part's content, trailing CR and LF stripped |
| Multipart.ContentUnchanged | crates/pkglab/pkglab-common/src/multipart.rs:48-51 | the content comes back unchanged exactly when it does not end in CR or LF |
| Multipart.ExtractFieldWithBoundary | crates/pkglab/pkglab-common/src/multipart.rs:27-58 | the loop ends on arbitrary bytes and computes the specified extraction |
| Multipart.TrimLineEnds | crates/pkglab/pkglab-common/src/multipart.rs:48-51 | strips exactly the trailing CR and LF bytes |
| GoModule.UrlEncode | crates/pkglab/pkglab-common/src/httphelpers.rs:72-83 | the encoding loop |
| GoModule.PercentDecode | crates/pkglab/pkglab-go/src/lib.rs:49-67 | the decoding loop, malformed escapes copied |
| GoModule.EncodeModulePath | crates/pkglab/pkglab-go/src/lib.rs:31-42 | the `!` encoding loop |
| GoModule.NormalizeModule | crates/pkglab/pkglab-go/src/lib.rs:76-94 | decoding, then dropping `!` before letters and lowering |
| GoModule.UrlEncodedByte | crates/pkglab/pkglab-common/src/httphelpers.rs:72-83 | unreserved bytes stand for themselves, any other is a percent sign and its value in two upper-case hex digits |
| GoModule.UrlEncodedConcat | crates/pkglab/pkglab-common/src/httphelpers.rs:72-83 | byte by byte |
| GoModule.FirstEscapeDecoded | crates/pkglab/pkglab-go/src/lib.rs:49-67 | decoding keeps what comes before the first escape, malformed ones included, gives the byte the escape stands for, and goes on after it |
| GoModule.NoEscapeUnchanged | crates/pkglab/pkglab-go/src/lib.rs:49-67 | without an escape nothing changes |
| GoModule.BangReversible | crates/pkglab/pkglab-go/src/lib.rs:31-42 | the `!` encoding has no capitals and loses nothing |
| GoModule.FirstBang | crates/pkglab/pkglab-go/src/lib.rs:76-94 | normalising lowers what comes before a `!`, drops the `!` before a letter and keeps it before anything else |
| GoModule.DecodeUndoesEncode | crates/pkglab/pkglab-common/src/httphelpers.rs:72-83 | decoding undoes encoding on every byte string |
| GoModule.UnbangUndoes | crates/pkglab/pkglab-go/src/lib.rs:31-42 | normalising undoes the `!` encoding up to case |
| GoModule.SpellingsShareOneKey | crates/pkglab/pkglab-go/src/lib.rs:69-94 | plain, `!`-encoded, percent-encoded and both-encoded spellings of a path share the lower-case key, and the key is its own |
| GoModule.TwicePercentEncoded | crates/pkglab/pkglab-go/src/lib.rs:76-94 | the twice percent-encoded spelling reaches that key exactly for paths without a slash |
| CommitLog.WalkExact | crates/git/src/read.rs:564-586 | the walk ends and lists exactly the visible commits reached from the start, once each |
| CommitLog.SinceExact | crates/git/src/read.rs:564-586 | with no bound the walk lists exactly the non-root ancestors; with only `since`, and no commit older than it with a parent at or after it, exactly those at or after it |
| CommitLog.LateParentLost | crates/git/src/read.rs:575-577 | from a commit older than `since` a parent at or after it is lost |
| CommitLog.SinceExactly | crates/git/src/read.rs:564-586 | so the walk is exact from every start if and only if no commit older than `since` has a parent at or after it |
| CommitLog.DepthFirst | crates/git/src/read.rs:564-586 | the walk lists a commit, then all it leads to through its parents, the last one first, and only then what was left before |
| CommitLog.LogShows | crates/git/src/read.rs:564-588 | a commit is in the log exactly when some way down parent edges from a start leads to it over stored commits other than the root inside both bounds; each once, none older than the next |
| CommitLog.LogExact | crates/git/src/read.rs:564-588 | the log is the walked commits, once each, newest first, ties in walk order; with `until` the visible commits reached through visible ones |
| CommitLog.PageHolds | crates/git/src/read.rs:589-594 | a page starts `offset` entries in and holds `limit` of them, or all that are left |
| CommitLog.PagesTile | crates/git/src/read.rs:589-594 | consecutive pages tile the list: nothing twice, nothing missing |
| CommitLog.CommitLog | crates/git/src/read.rs:537-596 | the method returns the log's length and that page of it: how many entries, and which |
| CommitLog.FirstOfEachExact | crates/git/src/read.rs:189-213 | a commit is in the change list exactly when it is the first of the walk with its change-id |
| CommitLog.FirstOfEachInOrder | crates/git/src/read.rs:189-213 | in the order in which the walk met them |
| CommitLog.FirstOfEachDistinct | crates/git/src/read.rs:189-213 | every change of the walk is listed, none twice |
| CommitLog.ListChanges | crates/git/src/read.rs:176-215 | the method computes that list |
| Sorting.SortedIsStable | crates/git/src/read.rs:587 | the specified sort is an ascending stable permutation for any total preorder |
| Sorting.StableSortUnique | crates/git/src/read.rs:587 | there is only one such permutation |
| VersionCompare.PrecedenceOrder | crates/pkglab/pkglab-common/src/versioncmp.rs:78-85 | precedence is a total preorder in which equal means the same up to build metadata |
| VersionCompare.PrecedenceExact | crates/pkglab/pkglab-common/src/versioncmp.rs:78-85 | the order is the one of the rules: smaller major, then minor, then patch number is lower; a pre-release is below its release; of two, the first identifier that differs decides, numbers by value and below text, and a proper prefix is lower |
| VersionCompare.CompareExact | crates/pkglab/pkglab-common/src/versioncmp.rs:78-85 | `compare` follows these rules, then the build metadata, and text order where one side does not parse |
| VersionCompare.ShortSpellings | crates/pkglab/pkglab-common/src/versioncmp.rs:22-41 | one, two or three numbers, with a `v` or a space before them, are the same version |
| VersionCompare.SuffixNeedsThree | crates/pkglab/pkglab-common/src/versioncmp.rs:22-41 | with a pre-release or build, fewer than three numbers never parse |
| VersionCompare.CompareOrder | crates/pkglab/pkglab-common/src/versioncmp.rs:78-85 | on versions that parse, `compare` is a total preorder that respects precedence |
| VersionCompare.MixedListsCanCycle | crates/pkglab/pkglab-common/src/versioncmp.rs:78-85 | one unparseable entry can close a cycle |
| VersionCompare.SortIsAscendingStable | crates/pkglab/pkglab-common/src/versioncmp.rs:98-100 | sorting a list that parses gives an ascending stable permutation |
| VersionCompare.Highest | crates/pkglab/pkglab-common/src/versioncmp.rs:44-57 | none exactly when nothing parses; otherwise the first parseable entry that no parseable entry exceeds; none is above it by the rules |
| VersionCompare.HighestIsLastSorted | crates/pkglab/pkglab-common/src/versioncmp.rs:44-57 | the highest has the precedence of the sorted list's last entry |
| VersionCompare.SortVec | crates/pkglab/pkglab-common/src/versioncmp.rs:98-100 | in place, the same strings in every case; a list that parses becomes ascending, entries of equal version keeping their order |
| LaneLayout.NeverTwoLanes | frontend/src/lib/graph-layout.ts:30-64 | at no point of a layout is an id on two lanes |
| LaneLayout.PlaceKeepsReserved | frontend/src/lib/graph-layout.ts:33-60 | placing a commit leaves lanes reserved for others alone |
| LaneLayout.ReservationHolds | frontend/src/lib/graph-layout.ts:33-61 | a reserved lane stays reserved until the commit comes and is then its lane |
| LaneLayout.ParentsReserved | frontend/src/lib/graph-layout.ts:46-60 | after placing a commit some lane waits for each parent, for an unreserved first parent its own |
| LaneLayout.ParentTakesReservedLane | frontend/src/lib/graph-layout.ts:33-61 | every parent that comes later is placed on the lane reserved for it |
| LaneLayout.FirstParentInherits | frontend/src/lib/graph-layout.ts:46-52 | a first parent nobody waited for gets its child's lane |
| LaneLayout.LowestFreeLane | frontend/src/lib/graph-layout.ts:34-42 | a commit nobody waits for goes on the lowest free lane, on a new one only when none is free |
| LaneLayout.LaterParentsLowest | frontend/src/lib/graph-layout.ts:51-58 | and so do later parents |
| LaneLayout.HeldAfter | frontend/src/lib/graph-layout.ts:33-60 | after placing a commit the lanes hold what they held before and its parents, and no longer the commit, unless it had no lane reserved and has no parents |
| LaneLayout.LaneCount | frontend/src/lib/graph-layout.ts:63 | every row's lane is below the lane count, which is the least such number, at least one |
| LaneLayout.ComputeLayout | frontend/src/lib/graph-layout.ts:30-64 | the method draws such a layout and reports that count |
| RunQueue.StepJobsExact | crates/git/src/actions.rs:341-400 | one queued job for each step with a command or a build, in order and no others, called by the step's name or by the job's key and the step's number counted from one over all steps |
| RunQueue.JobsOfConcat | crates/git/src/actions.rs:337-341 | the workflow's jobs one after the other |
| RunQueue.JobsAfter | crates/git/src/scheduler.rs:87-247 | a job ends in success exactly when its phase is Succeeded or its exit code 0, stays running when its task panics, and fails otherwise; a run that cannot start leaves its jobs alone |
| RunQueue.QueuedCountIsSize | crates/core/src/db.rs:1291-1315 | the count of queued runs is the number of queued rows |
| RunQueue.SuccessIffJobsSucceed | crates/git/src/scheduler.rs:87-247 | once started, a run succeeds exactly when no job fails, without panics exactly when every job ends in success |
| RunQueue.TickedAt | crates/git/src/scheduler.rs:60-84 | a tick executes a row exactly when it is queued with fewer than the cap queued before it, and changes no other row |
| RunQueue.TakenCount | crates/git/src/scheduler.rs:66-70 | at most the cap per tick, and all of them when fewer are queued |
| RunQueue.TakenInOrder | crates/core/src/db.rs:1291-1315 | runs are taken in id order, before all that stay queued |
| RunQueue.LogAscending | crates/git/src/scheduler.rs:44-85 | over any history of enqueues and ticks runs are executed in id order, each at most once |
| RunQueue.LatencyExact | crates/git/src/scheduler.rs:66-84 | a run with k queued ahead is still queued after t ticks exactly when t times the cap is at most k, however many runs arrive |
| RunQueue.LatencyBound | crates/git/src/scheduler.rs:66-84 | so it has ended exactly from tick k / cap + 1 on |
| RunQueue.TerminalStays | crates/git/src/scheduler.rs:71-83 | an ended or skipped run never changes again |
| RunQueue.MaxConcurrency | crates/git/src/scheduler.rs:28-34 | a positive setting is used, anything else gives 2 |
| RunQueue.ExecuteRun | crates/git/src/scheduler.rs:87-247 | whatever the order in which jobs end, the outcome is the same |
| RunQueue.RunTable.EnqueueRun | crates/git/src/actions.rs:322-408 | one run with one job per runnable step, labels and indices as given, skipped when there is none |
| RunQueue.RunTable.TickOnce | crates/git/src/scheduler.rs:59-85 | the loop over the truncated pending list is the specified tick |
| RunQueue.EnqueueInTwo | crates/git/src/actions.rs:322-408 | undisturbed, the separate statements are one enqueue |
| RunQueue.TicksInsideEnqueue | crates/git/src/actions.rs:332-407 | with any history of ticks and other enqueues between the insert and the rest, an ended run changes status exactly when the ticks reached it and no step is runnable |
| QueueSteps.MoveKeeps | crates/git/src/scheduler.rs:60-84 | every statement of every enqueue and every move of the scheduler keeps the queue's invariant |
| QueueSteps.ExecutedInOrder | crates/git/src/scheduler.rs:60-84 | however the statements interleave, runs are executed in id order, each at most once |
| QueueSteps.JobsStayQueued | crates/git/src/scheduler.rs:87-247 | of an executed run, exactly the jobs the execution started ever leave the queue; those inserted later stay queued |
| QueueSteps.ChangedExactly | crates/git/src/actions.rs:322-408 | a run has had another final status before exactly when it was executed and its enqueue returned without a job |
| QueueSteps.FinalWithJobs | crates/git/src/actions.rs:322-408 | a run with a job keeps the status it ends with |
| QueueSteps.SkippedAfterSuccess | crates/git/src/actions.rs:402-406 | a run that was executed with success can be set to skipped |
| QueueSteps.SuccessAfterSkipped | crates/git/src/scheduler.rs:61-84 | and a skipped run in the scheduler's list can be set to success |
| QueueSteps.EnqueueAlone | crates/git/src/actions.rs:322-408 | the moves of an undisturbed enqueue are the queue's enqueue event |
| QueueSteps.TickAlone | crates/git/src/scheduler.rs:59-85 | and those of an undisturbed tick its tick event |
| MetaTables.EffectKeepsKeys | crates/core/src/db.rs:1418-1535 | every one-statement writer that succeeds keeps every foreign key of every table |
| MetaTables.UniqueNumbersKept | crates/core/src/db.rs:1468-1483 | and the uniqueness of merge request numbers per repository |
| MetaTables.UniquePathsKept | crates/core/src/db.rs:1502-1511 | and that of workflow paths per repository |
| MetaTables.RepoStored | crates/core/src/db.rs:270-289 | an upsert stores name and text in that one row, which keeps its organisation; refused exactly for a new row of a missing organisation |
| MetaTables.OrgStored | crates/core/src/db.rs:259-268 | an organisation is created once, named by its id; an upsert names it anew |
| MetaTables.ChangeStored | crates/core/src/db.rs:616-637 | an upsert stores description and head in that one row, which keeps its repository and author |
| MetaTables.BookmarkStored | crates/core/src/db.rs:664-680 | an upsert stores the flag in that one row |
| MetaTables.AnchorStored | crates/core/src/db.rs:745-762 | likewise the change-id and the commit id |
| MetaTables.ConflictStored | crates/core/src/db.rs:788-808 | likewise the sides; everything else stays |
| MetaTables.MrStored | crates/core/src/db.rs:831-850 | a new merge request is open; refused exactly for a used id or number or a missing repository |
| MetaTables.MrUpdated | crates/core/src/db.rs:923-953 | an update sets what it names and leaves the other columns |
| MetaTables.NotesStored | crates/core/src/db.rs:955-1041 | a review or comment is stored as given, for an existing merge request |
| MetaTables.WorkflowStored | crates/core/src/db.rs:1110-1130 | a second upsert of a path gives its one row the new text and adds none |
| MetaTables.RunStored | crates/core/src/db.rs:1215-1250 | a run starts queued; a status write changes the status only |
| MetaTables.JobStored | crates/core/src/db.rs:1317-1361 | a job starts queued without an exit code, which only the two final statuses write |
| MetaTables.OtherPartsStay | crates/core/src/db.rs:259-1361 | each statement changes the tables of its own part only |
| RepoRemoval.ChangesGo | crates/core/src/db.rs:321-374 | the delete of the changes fails exactly when a conflict filed under another repository names one of them |
| RepoRemoval.RepoGoes | crates/core/src/db.rs:376-396 | the final delete of the repository row always succeeds |
| RepoRemoval.PurgedIsExact | crates/core/src/db.rs:321-398 | a removal that gets through takes exactly the repository's rows, cascaded ones included, if and only if no other repository's run or parent edge hangs on its workflows or changes; all other rows are untouched |
| Renames.MovedKeeps | crates/core/src/db.rs:1418-1535 | an injective rewrite of repository ids with its cascades keeps every key of the dependent tables |
| Renames.MovedHistoryBack | crates/core/src/db.rs:1430-1467 | rewriting back restores the history tables |
| OrgRename.LastSegmentOf | crates/core/src/db.rs:425 | the name derived from a new id is the part after the organisation |
| OrgRename.RepoRenameKeeps | crates/core/src/db.rs:403-432 | a repository rename keeps every foreign key |
| OrgRename.RepoRenameNamespaced | crates/core/src/db.rs:403-432 | ids and names stay in step exactly for new ids within the same organisation |
| OrgRename.RepoRenameBack | crates/server/src/handlers/write.rs:164-179 | renaming back, as the handler does when moving the directory fails, restores the state |
| OrgRename.AsciiLen | crates/core/src/db.rs:547-551 | byte length and character length of a name agree exactly for ASCII names |
| OrgRename.IdsCut | crates/core/src/db.rs:547-551 | for any old name, a new id lacks as many characters after the organisation as the old name has bytes more than characters |
| OrgRename.NeverClashes | crates/core/src/db.rs:514-560 | onto a free slash-free name no rewritten id meets another repository |
| OrgRename.OrgRenameKeeps | crates/core/src/db.rs:536-559 | at commit every foreign key holds again |
| OrgRename.OrgRenameMoves | crates/core/src/db.rs:547-551 | every repository of the organisation is found under the new name with its other columns, every other one where it was, and none is lost or added |
| OrgRename.DependentsFollow | crates/core/src/db.rs:1418-1535 | in all tables, every row is found under its repository's new id with all its other columns, none is added, and reviews, comments, jobs and parent edges are unchanged |
| OrgRename.RepoDependentsFollow | crates/core/src/db.rs:403-432 | likewise when one repository is renamed |
| OrgRename.SameRows | crates/core/src/db.rs:1418-1535 | each repository has under its new id exactly the changes, bookmarks, anchors, merge requests, workflows and runs it had under the old one |
| OrgRename.OrgRenameNamespaced | crates/core/src/db.rs:547-551 | ids and names stay in step exactly when the old name is ASCII or the organisation is empty |
| OrgRename.OrgRenameBack | crates/core/src/db.rs:514-560 | renaming back restores every table, and the whole state exactly if the organisation's name was its id |
| MrNumbers.NumbersAreExactly | crates/core/src/db.rs:812-850 | the numbers in use are exactly 1 to the number of merge requests |
| MrNumbers.MaxNumber | crates/core/src/db.rs:824-829 | the scan for the highest number, 0 for none |
| MrNumbers.MaxIsCount | crates/core/src/db.rs:824-829 | the highest number is the number of merge requests |
| MrNumbers.InsertNumbered | crates/core/src/db.rs:831-848 | inserting the next number keeps the numbering |
| MrNumbers.NextIsFree | crates/core/src/db.rs:831-848 | that insert fails only for a missing repository |
| MrNumbers.MoveNumbered | crates/core/src/db.rs:1468-1483 | renames keep the numbering |
| MrNumbers.DropNumbered | crates/core/src/db.rs:376-391 | removing a repository keeps the numbering of the others |
| MetaDb.StepKeepsKeys | crates/core/src/db.rs:259-1361 | every operation, failing ones included, keeps every foreign key |
| MetaDb.StepKeepsNumbers | crates/core/src/db.rs:812-850 | every operation keeps the numbering |
| MetaDb.StepKeepsPaths | crates/core/src/db.rs:1110-1130 | every operation keeps workflow paths unique |
| MetaDb.StepKeepsNames | crates/core/src/db.rs:259-289 | every operation as the callers use it keeps repository ids `org/name` |
| MetaDb.Run | crates/core/src/db.rs:1418-1535 | after any sequence of operations all keys, the numbering and the naming hold |
| MetaDb.RunNumbers | crates/core/src/db.rs:812-850 | after any sequence, each repository's merge requests are numbered exactly 1 to k, each once |
| MetaDb.RunRename | crates/core/src/db.rs:514-560 | after any sequence, renaming an existing organisation onto a free name succeeds |
| MetaDb.StepKeepsOwned | crates/git/src/actions.rs:420-429 | with the dispatch's ownership check, every run stays filed under its workflow's repository |
| MetaDb.RemovalAfterRun | crates/core/src/db.rs:321-398 | after any sequence of operations, deleting a repository fails exactly when a conflict of another repository names one of its changes; otherwise it removes exactly its rows, the CI rows if and only if no other repository's run is filed under one of its workflows |
| MetaDb.CheckedRunsInside | crates/git/src/actions.rs:420-429 | which holds for every sequence in which each new run's workflow is checked |
| MetaDb.SharedChangeReached | crates/core/src/db.rs:616-635 | six writes lead from the empty database to one change in two repositories |
| MetaDb.SharedChangeBlocks | crates/core/src/db.rs:321-374 | and in that state the removal fails half-way |
| MetaDb.Db.Execute | crates/core/src/db.rs:259-289 | a one-statement writer has its effect or, on a broken key, none |
| MetaDb.Db.CreateMr | crates/core/src/db.rs:812-850 | takes the highest number plus one, which is the next; succeeds exactly for an existing repository |
| MetaDb.Db.RenameRepo | crates/core/src/db.rs:403-432 | succeeds exactly for an existing repository and a free id; then every row of every table follows, no other repository changes, every key holds, and ids and names stay in step |
| MetaDb.Db.RenameOrg | crates/core/src/db.rs:514-560 | taken, not found, failed on a clash, or moved with every key satisfied at commit |
| MetaDb.Db.DeleteOrg | crates/core/src/db.rs:563-590 | succeeds exactly for an existing organisation that no repository names, removes that row and nothing else, and keeps every key |
| DeleteStatements.DeleteKeeps | crates/core/src/db.rs:321-398 | each delete statement that gets through keeps every key |
| DeleteStatements.KeysAlong | crates/core/src/db.rs:321-398 | so in a list of statements that gets through every key holds after each of them |
| MetaDb.Db.ClearParents | crates/core/src/db.rs:338-356 | the tables are those after one delete per change, each change once; exactly the parent edges of those changes are gone |
| MetaDb.Db.ClearTables | crates/core/src/db.rs:358-374 | the tables are those after the five deletes that need no list, in order |
| MetaDb.Db.ClearMrs | crates/core/src/db.rs:376-391 | the tables are those after one delete per merge request, each once; exactly they, their reviews and their comments are gone |
| MetaDb.Db.DeleteRepo | crates/core/src/db.rs:321-398 | the removal is exactly the listed statements in order, each change and merge request once, every key holding after every one of them; it fails exactly at the delete of held changes, which no key lets through |
| WorkflowIds.ReturnedId | crates/core/src/db.rs:1110-1130 | the returned id is the workflow's exactly when it was inserted or the connection's last insert had that id |
| WorkflowIds.SecondPush | crates/git/src/actions.rs:289-293 | on one connection a second push files its run under the id of the first push's last job, and fails exactly when that is no workflow |
| WorkflowIds.ForeignRunRemoved | crates/git/src/actions.rs:289-293 | if that is another repository's workflow, removing that repository deletes the run |
| WorkflowIds.ForeignRunExample | crates/git/src/actions.rs:289-293 | and it happens: two pushes after one workflow of another repository |
| UnifiedDiff.TokenInPlace | crates/git/src/read.rs:759-766 | in a line's text every token stands right after the ones before it and before the ones after it |
| UnifiedDiff.FlattenConcat | crates/git/src/read.rs:759-766 | the text of two token lists is their texts, one after the other |
| UnifiedDiff.PrintLine | crates/git/src/read.rs:751-767 | a line is its sign and all its tokens in order, ended by exactly one newline |
| UnifiedDiff.UnifiedPatch | crates/git/src/read.rs:735-771 | the buffer holds the header lines, then each hunk's header and lines |
| UnifiedDiff.TreePatch | crates/git/src/read.rs:678-699 | a patch is the files' patches in order |
| DiffParser.ParseLines | frontend/src/lib/diff-parser.ts:51-113 | the line loop computes the specified file |
| DiffParser.ParseDiff | frontend/src/lib/diff-parser.ts:27-117 | the chunk loop computes the specified files |
| PatchRoundTrip.NumbersConsecutive | frontend/src/lib/diff-parser.ts:79-107 | for every text, every line of every hunk has the start plus the number of earlier lines on its side |
| PatchRoundTrip.FirstNumber | frontend/src/lib/diff-parser.ts:79-107 | so the first line on a side has the hunk's start |
| PatchRoundTrip.NextNumber | frontend/src/lib/diff-parser.ts:79-107 | and each further one the next number |
| PatchRoundTrip.LineReads | frontend/src/lib/diff-parser.ts:57-107 | a printed line comes back with type, text and numbers exactly unless it is removed text opening with `-- ` or added text opening with `++ ` |
| PatchRoundTrip.HunkHeaderReads | frontend/src/lib/diff-parser.ts:64-75 | a printed hunk header gives back its ranges |
| PatchRoundTrip.NamesExact | frontend/src/lib/diff-parser.ts:37-38 | the header gives back both paths exactly when ` b/` does not start inside the first after its first character |
| PatchRoundTrip.LinesExact | frontend/src/lib/diff-parser.ts:35 | printed lines come back exactly when none has a newline inside |
| PatchRoundTrip.PatchChunks | frontend/src/lib/diff-parser.ts:31-34 | splitting a printed patch gives one chunk per file |
| PatchRoundTrip.RoundTrip | frontend/src/lib/diff-parser.ts:27-117 | parsing a printed patch recovers paths, headers, ranges, and typed numbered lines of all files with hunks, plus one empty context line per file |
| PatchContents.FileComesBack | frontend/src/lib/diff-parser.ts:27-117 | of a printed patch every file with hunks and no other comes back, in order, with its path, its header lines and as many hunks |
| PatchContents.HunkComesBack | frontend/src/lib/diff-parser.ts:64-75 | every hunk comes back with its ranges, its header line and as many lines, one empty context line more under the last |
| PatchContents.LineComesBack | frontend/src/lib/diff-parser.ts:79-107 | every line comes back with its kind, all its tokens without the final newline, and on each side the start plus the number of earlier lines there |
| PatchContents.CountIsSize | frontend/src/lib/diff-parser.ts:83-99 | the counts behind the numbers are numbers of lines |
| PatchContents.LineUnderHunk | frontend/src/lib/diff-parser.ts:78-110 | any line under a hunk is added by its sign, empty ones as context; others are passed over |
| PatchContents.HeaderLineKept | frontend/src/lib/diff-parser.ts:53-63 | header lines are kept in order, wherever they stand |
| PatchContents.BareRange | frontend/src/lib/diff-parser.ts:65-73 | a range without a count is one line long |
| PatchContents.ShortHunkHeader | frontend/src/lib/diff-parser.ts:65-73 | so is each side of the short form of a hunk header, whatever follows it |
| PatchContents.CutAtMarks | frontend/src/lib/diff-parser.ts:31 | text is cut exactly where the mark follows one of the four line terminators |

## Left out

- IngestTranslate: trees, blobs, signatures and author data of a commit; the head and bookmark rows written after the loop (`ingest.rs:163-197`); the change and conflict rows, which `MetaTables` has on their own.
- IngestTranslate.RepoTables.IngestBareRepo: a row whose stored commit id does not parse is assumed not to occur, since the tables are written by this code only; the loop itself handles it (`Step`).
- BlobMachine: two running calls never hold the same random temp file name; temp files left by a crash are never cleaned, as in the code, and are not listed. A digest is one file name here: one with a slash in it, or an absolute path, which the code joins to the root directory as it stands, is not modelled.
- BlobMachine.HashesAgreeWithBytes: digests that are themselves sidecar or temp file names are excluded; no content matches such a digest.
- BlobGc.Run: a pass is atomic and does not overlap a publish; the code takes no lock. An artifact row that cannot be decoded is not modelled.
- ArtifactStore: the source tag, descriptors and the two keys only; other columns, uploads and meta rows are left out.
- FormFields.PartCarries: one Content-Disposition line, spelled as browsers spell it, whose values hold no quote, equals sign or line end, and no other header line with `name=`; any other headers are covered by `EncodedFieldExtracted` only.
- Multipart.EncodedFieldExtracted: header text is bytes; the lossy UTF-8 conversion before the field name is searched is the identity here. Extraction of the first file and its name is left out.
- GoModule: module paths are ASCII bytes; the lossy UTF-8 conversion of arbitrary decoded bytes is left out.
- Glob: case folding happens before; only folded strings are compared.
- VersionCompare: the version library's strict parser and its order on build metadata are parameters; that what it accepts has three numbers is assumed where it is used (`SuffixNeedsThree`).
- VersionCompare.SortVec: on lists with an unparseable entry, whose comparison can be cyclic, only that the entries are kept.
- CommitLog.SinceExact: the `until` bound prunes the walk at a too new commit; `LogExact` states what is then listed.
- CommitLog: revset resolution and bookmark tips are the start list.
- RunQueue: cron schedules, merge request anchors, checkout, pods, logs and timeouts; database errors, which the code logs and passes over.
- RunQueue.RunTable.TickOnce: enqueueing is one step with respect to ticks; `QueueSteps` has the single statements.
- QueueSteps: jobs of one run are executed in one move; the runs of one list one after the other, as in the code.
- MetaTables: timestamps and columns that no key, statement or property tells apart (kept as one text); the schema migrations.
- MetaTables.EffectKeepsKeys: a row id is any unused one; that the database never reuses an id is not needed.
- MetaDb.Db.CreateMr: reading the highest number and inserting are one step; in the code they are two statements, and of two concurrent calls one fails on the unique key.
- MetaDb.Db.RenameOrg: a rewritten id that meets another row counts as a clash even if that row is itself rewritten first; with ids of the form `org/name` there is none.
- MetaDb.Wellformed: organisation and repository names are checked by the handlers; only that they hold no slash and, for the renamed organisation, are ASCII is used here.
- Merge request re-association by bookmark: its query is not scoped to one repository.
- UnifiedDiff: hunks come from the diff library; bytes that are not UTF-8 are replaced before printing and are not modelled.
- DiffParser: numbers are unbounded, where the client's are floating point and exact up to 2^53.
- PatchRoundTrip.RoundTrip: needs text in which no line terminator other than the final newline is followed by the `diff --git ` mark.
- LaneLayout: colours and the drawing itself.
- HTTP routes, authentication headers, upstream clients, subprocesses, Kubernetes, the cryptographic and archive formats.
