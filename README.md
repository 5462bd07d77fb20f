# Iron-Sentinel core, modelled in Dafny

Iron-Sentinel is an incident-response toolkit made of several parts:

- A **triage pipeline** runs a fixed list of evidence collectors into a case directory. A collector that fails leaves an error artifact. The pipeline then optionally scans the collected files for indicators of compromise (IOCs), writes a JSON-lines timeline, and records everything in a manifest.
- A **filesystem snapshot collector** walks configured roots. It skips the pseudo-filesystems, lists every entry and can hash it, and in copy mode archives regular files within per-file, total and file-count budgets.
- A **command server** enrolls agents, queues jobs for them, hands each queued job to its agent once, and stores uploaded results, marking the job done.
- An **agent** polls the server, turns a triage job's arguments into a command line, runs it, packs the newest case directory and uploads it. When the server refuses its credentials it enrolls again.

Each core source file is one module:

- `ServerApp`: `serverapp.dfy`
- `FsSnapshot`: `fs_snapshot.dfy`
- `Agent`: `agent.dfy`
- `Ioc`: `ioc.dfy`
- `Timeline`: `timeline.dfy`
- `Triage`: `triage.dfy`

Two modules are shared:

- `Collectors` holds the artifact record and the digest of a written file.
- `Common` holds `Option`/`Result`, Go's `strings.TrimSpace`, `Split` and `Join`, path joining and base names, and decimal rendering of integers.

The server keeps its state in place, so it is a class:

- The agent map and the job list are fields.
- Each handler updates them and states its new state as a function of the old one.
- The job-queue operations (claim the first queued job of an agent, mark a job done) are value functions, and lemmas are proved about them.

The pure parts are functions with lemmas. These are argument building, exclusion, IOC matching, the timeline's events and the triage result.

The loops of the source are methods whose `ensures` tie them to those functions:

- the snapshot walker (a class whose state the callback updates);
- the pattern loader and the artifact scan;
- the argument builder and the newest-directory search;
- the timeline writer and the triage collector loop;
- Go's `int64` rendering, which fills and reverses a 24-byte buffer.

Everything outside the program is a parameter:

- the clock, `uuid`;
- file contents and filesystem outcomes;
- HTTP responses, SHA-256 digests.

## Model

| member | source | states |
|---|---|---|
| ServerApp.Server.constructor | core/internal/serverapp/serverapp.go:71-77 | a new server has its data directory and pre-shared key (PSK), no agents and no jobs |
| ServerApp.Server.RequirePsk | core/internal/serverapp/serverapp.go:93-99 | a request passes exactly when no PSK is configured or its `X-PSK` header equals the PSK |
| ServerApp.ConstantTimeEqual | core/internal/serverapp/serverapp.go:98 | the byte-by-byte comparison reports equality exactly when the two strings are equal |
| ServerApp.Server.AuthenticateAgent | core/internal/serverapp/serverapp.go:101-121 | succeeds exactly when both query values are non-empty, the agent is known and the token matches. On success only that agent's last-seen time changes and the state is persisted; on failure nothing changes |
| ServerApp.Server.HandleEnroll | core/internal/serverapp/serverapp.go:123-159 | a non-POST request gets 405, a failed PSK check 401 and an undecodable body 400, and none of them changes anything. A POST with an accepted PSK and a decoded body always succeeds. Success adds exactly the new agent with the fresh id and token, which then authenticate, and persists |
| ServerApp.Server.HandleJobs | core/internal/serverapp/serverapp.go:161-202 | a non-POST request gets 405, a failed PSK check 401, and a missing body or empty agent id 400. A POST with an accepted PSK and a body naming an agent always succeeds. Success appends one queued job, of type `triage` when none is given, then persists and returns the job |
| ServerApp.FirstQueued | core/internal/serverapp/serverapp.go:220-226 | the index found is the first queued job of the agent; None means the agent has no queued job |
| ServerApp.ClaimNextSpec | core/internal/serverapp/serverapp.go:220-230 | claiming changes exactly the agent's first queued job, to `claimed` at the given time. The list is unchanged exactly when the agent has no queued job |
| ServerApp.Server.HandleJobsNext | core/internal/serverapp/serverapp.go:204-237 | a non-GET request gets 405 and an unauthenticated one 401, unchanged. Otherwise the agent is touched and its first queued job is claimed and returned with 200, or 204 with nothing when there is none |
| ServerApp.ClaimLeavesOthersJobs | core/internal/serverapp/serverapp.go:221-223 | a claim never touches another agent's job |
| ServerApp.ProgressOfOperations | core/internal/serverapp/serverapp.go:191 | enqueueing, claiming and completing only append jobs or move a job forward, never back: ids and owners stay, a job never returns to `queued`, a claimed job stays claimed or becomes done, and a done job stays done |
| ServerApp.NeverClaimedTwice | core/internal/serverapp/serverapp.go:224-227 | once a job has left `queued`, no later claim changes it again |
| ServerApp.ResultsJobId | core/internal/serverapp/serverapp.go:244-254 | an id is found only in a path ending in `/results`, and it holds no slash |
| ServerApp.ResultsPathOfJob | core/internal/serverapp/serverapp.go:244-254 | `/v1/jobs/<id>/results` yields exactly `<id>` for every slash-free id |
| ServerApp.FirstWithId | core/internal/serverapp/serverapp.go:295-300 | the index found is the first job with that id; None means no job has it |
| ServerApp.CompleteSpec | core/internal/serverapp/serverapp.go:294-301 | completion sets only the first job with the id to `done` at the given time |
| ServerApp.CompleteTwice | core/internal/serverapp/serverapp.go:294-301 | completing the same job twice is the same as completing it once at the later time |
| ServerApp.Server.MarkDone | core/internal/serverapp/serverapp.go:294-301 | the job list becomes its completion for that id |
| ServerApp.StoredName | core/internal/serverapp/serverapp.go:310-319 | the stored name is never empty, is `case.tar.gz` for an unnamed part and is the name itself for a plain name |
| ServerApp.UploadPath | core/internal/serverapp/serverapp.go:315-319 | an upload lands at `<data dir>/uploads/<job id>/<stored name>` |
| ServerApp.PartLoopOutcome | core/internal/serverapp/serverapp.go:268-292 | the part loop ends in 200, 400 or 500, and with 200 exactly when a path was saved |
| ServerApp.AcceptedUploadStoredFilePart | core/internal/serverapp/serverapp.go:268-292 | 200 means the first part named `file` was stored, every part before it was read, and the saved path is that part's upload path |
| ServerApp.ReadUpload | core/internal/serverapp/serverapp.go:268-292 | the loop over the parts computes the part-loop outcome |
| ServerApp.Server.StoreUpload | core/internal/serverapp/serverapp.go:262-303 | an unreadable multipart body gets 400 with no change. Otherwise the part-loop outcome is returned and the job is completed exactly when an upload was saved, and state is persisted again |
| ServerApp.Server.HandleJobResults | core/internal/serverapp/serverapp.go:239-307 | the checks run in order: 405 for the wrong verb, 404 for a bad path, 401 for a bad credential, and none of them changes anything. Then the upload is handled as above. 200 holds exactly when a path was saved |
| ServerApp.Server.Persist | core/internal/serverapp/serverapp.go:357-376 | the persisted agents and jobs equal the live ones; with no data directory nothing is written |
| ServerApp.Server.LoadFromDisk | core/internal/serverapp/serverapp.go:333-355 | with no data directory it fails and changes nothing. Otherwise a readable agents file is merged into the agent map, a readable jobs file replaces the job list, and it succeeds |
| FsSnapshot.IsExcluded | collectors/linux/fs_snapshot.go:61-70 | the loop answers true exactly when the path is `/proc`, `/sys`, `/dev` or `/run`, or lies below one of them |
| FsSnapshot.ExclusionExamples | collectors/linux/fs_snapshot.go:61-70 | `/proc`, `/proc/1/maps`, `/sys/kernel`, `/dev` and `/run/user` are excluded |
| FsSnapshot.SharedPrefixNotExcluded | collectors/linux/fs_snapshot.go:65 | a path that merely shares a prefix (`/processes`) is not excluded |
| FsSnapshot.ExcludedBelow | collectors/linux/fs_snapshot.go:61-70 | everything below an excluded path is excluded |
| FsSnapshot.Normalize | collectors/linux/fs_snapshot.go:87-110 | no paths and an unknown mode are the two option errors. Otherwise the mode defaults to metadata, every budget is positive, and a positive budget given is kept |
| FsSnapshot.DefaultLimits | collectors/linux/fs_snapshot.go:99-110 | the defaults are 20000 files, 25 MiB per file and 250 MiB in total, in metadata mode |
| FsSnapshot.TarName | collectors/linux/fs_snapshot.go:264 | an archive member name is the path without its leading slash |
| FsSnapshot.TarNameInjective | collectors/linux/fs_snapshot.go:264 | distinct absolute paths get distinct member names |
| FsSnapshot.StepDecisions | collectors/linux/fs_snapshot.go:184-283 | the callback's decisions. An excluded entry or a spent file budget skips directories and passes over files, and every other entry is counted. An entry without file information is only counted. Otherwise exactly one entry is listed, with the node's path, type, size, mode and time, unless opening the archive fails, which happens exactly for the first file to be copied when the archive cannot be created. Symlinks, directories and other entries are listed as they are. In copy mode a file over the per-file budget is listed with `file_too_large`, not copied, and the walk goes on. Only a file that fits the per-file budget but not the total one stops the walk, after being listed as over the total limit |
| FsSnapshot.StepStops | collectors/linux/fs_snapshot.go:248-252 | before the total budget is hit, a step stops the walk exactly when it lists an entry refused for the total budget, and that entry is then the last one |
| FsSnapshot.WalkRootsStops | collectors/linux/fs_snapshot.go:170-290 | once an entry is refused for the total budget, no later entry or root is walked: that entry is the last one listed and the root loop ends normally |
| FsSnapshot.StepWithin | collectors/linux/fs_snapshot.go:195-279 | one callback step keeps the budgets invariant: file count and copied bytes within their limits, every entry consistent with the configuration, and whole archive members exactly the copied files. It loses nothing already recorded |
| FsSnapshot.MetadataOnlyNeverArchives | collectors/linux/fs_snapshot.go:131-151 | in metadata mode no archive is opened and nothing is copied |
| FsSnapshot.WalkNodeWithin | collectors/linux/fs_snapshot.go:184-283 | walking a whole subtree keeps the budgets invariant |
| FsSnapshot.WalkRootsWithin | collectors/linux/fs_snapshot.go:170-290 | walking all roots keeps the budgets invariant |
| FsSnapshot.Walker.constructor | collectors/linux/fs_snapshot.go:99-130 | a walker starts from the empty state under its configuration |
| FsSnapshot.Walker.Visit | collectors/linux/fs_snapshot.go:184-283 | the in-place callback returns the step's decision and leaves the walker in the step's state |
| FsSnapshot.Walker.Walk | collectors/linux/fs_snapshot.go:170-283 | the in-place walk of a subtree computes the recursive walk's outcome and state |
| FsSnapshot.WalkAll | collectors/linux/fs_snapshot.go:170-290 | the loop over the roots computes the roots' outcome: cancellation, the first walk error, or done. It keeps the budgets invariant |
| FsSnapshot.AssembleArtifacts | collectors/linux/fs_snapshot.go:292-331 | the artifacts of a finished walk: no entries is an error, then the metadata listing with its annotations, then the archive when it was opened and its digest was taken |
| FsSnapshot.Collect | collectors/linux/fs_snapshot.go:86-332 | the collector computes the snapshot function |
| FsSnapshot.StepEarned | collectors/linux/fs_snapshot.go:131-255 | one step of the walk keeps the invariant that an open archive was opened for a recorded file that reached the copy step: a regular file within the per-file budget and with no skip reason |
| FsSnapshot.WalkRootsEarned | collectors/linux/fs_snapshot.go:170-290 | walking all roots keeps that invariant |
| FsSnapshot.ArchiveOnlyAfterCopyStep | collectors/linux/fs_snapshot.go:318-329 | when a snapshot yields two artifacts, the archive was opened, its digest is the archive artifact, and some recorded entry is a file that reached the copy step |
| FsSnapshot.SnapshotWithinBudgets | collectors/linux/fs_snapshot.go:170-331 | a successful snapshot yields the metadata artifact, and the archive second only in copy mode. Its recorded counts read back as numbers within the file and total budgets, and an entry refused for the total budget is the last one listed |
| FsSnapshot.SnapshotAssembles | collectors/linux/fs_snapshot.go:170-300 | a successful snapshot is the assembly of a walk over all roots that ended normally |
| FsSnapshot.AssembleWithinBudgets | collectors/linux/fs_snapshot.go:292-331 | artifacts assembled from a walk within budgets list the metadata first, with counts that read back within the budgets, and the archive second only in copy mode |
| FsSnapshot.TotalLimitEndsSnapshot | collectors/linux/fs_snapshot.go:284-289 | in a successful snapshot an entry refused for the total budget is the last one listed |
| FsSnapshot.SnapshotErrors | collectors/linux/fs_snapshot.go:86-175 | no paths, a bad mode, a failed metadata file and cancellation before the first root each give their own error |
| FsSnapshot.OnlySkippedRoots | collectors/linux/fs_snapshot.go:170-294 | when every root is blank or excluded the snapshot fails with "snapshot produced no entries" |
| FsSnapshot.MetadataModeListingOnly | collectors/linux/fs_snapshot.go:318-329 | in metadata mode the only artifact is the listing and it records zero bytes copied |
| Common.BoolString | collectors/linux/fs_snapshot.go:334-339 | renders `true` exactly for true and `false` otherwise, as does the agent's copy at agents/internal/agent/agent.go:385-390 |
| Common.FormatDecimal | collectors/linux/fs_snapshot.go:345-365 | the buffer-and-reverse rendering of a 64-bit integer yields its decimal text, with a minus sign for negatives, for every value including the minimum |
| Common.ReverseInPlace | collectors/linux/fs_snapshot.go:361-363 | the two-index swap loop reverses the buffer's prefix and leaves the rest alone |
| Common.DecimalRoundTrip | analyzers/timeline/timeline.go:89-109 | decimal text reads back as the number it renders |
| Common.DecimalInjective | analyzers/timeline/timeline.go:89-109 | distinct numbers render as distinct text |
| Common.AsWrittenAgreesAwayFromMin | collectors/linux/fs_snapshot.go:345-365 | the rendering as written yields the decimal text for every value but the minimum |
| Common.AsWrittenGarblesMin | collectors/linux/fs_snapshot.go:345-365 | the rendering as written ends the minimum's text in `(` where the decimal text ends in `8` |
| Common.TrimIdempotent | analyzers/ioc/ioc.go:43 | trimming white space twice is trimming once |
| Common.TrimEmptyIff | analyzers/ioc/ioc.go:43-46 | a trimmed string is empty exactly when it is all white space |
| Common.TrimmedNonBlankMembers | analyzers/ioc/ioc.go:42-48 | the kept pieces are exactly the non-empty trimmed forms of the input pieces |
| Common.SplitSpec | core/internal/serverapp/serverapp.go:249 | the pieces of a split hold no separator and join back to the input |
| Common.SplitJoin | core/internal/serverapp/serverapp.go:249 | splitting joined separator-free pieces gives the pieces back |
| Common.OccurrenceInSomePiece | analyzers/ioc/ioc.go:76-84 | a pattern without the separator found in a text is found in one of its pieces |
| Common.BaseOfPlainName | core/internal/serverapp/serverapp.go:319 | the base name of a non-empty slash-free name is the name |
| Agent.ApplyDefaults | agents/internal/agent/agent.go:56-67 | an empty server URL is an error. Otherwise the poll interval, triage binary and output base get defaults only when unset, and the other settings are kept |
| Agent.BuildTriageArgs | agents/internal/agent/agent.go:336-383 | the argument builder computes the triage plan from the job's arguments |
| Agent.SnapshotPathFlags | agents/internal/agent/agent.go:353-361 | the loop emits one `--snapshot-path` flag per non-blank trimmed piece, in order |
| Agent.TriageArgsHead | agents/internal/agent/agent.go:337-340 | every plan starts with `triage --output <base>`, and a job without arguments gets exactly that |
| Agent.PathFlagsSpec | agents/internal/agent/agent.go:353-361 | the path flags alternate `--snapshot-path` and the paths, in order |
| Agent.SnapshotPathsClean | agents/internal/agent/agent.go:353-361 | every snapshot path passed is non-empty, trimmed and without a comma |
| Agent.InlineIocFile | agents/internal/agent/agent.go:342-351 | inline IOCs are written to `iocs_<job id>.txt` under the base and passed as a second `--ioc-file` after a named one; a failed write is the plan's error |
| Agent.InlineIocArgv | agents/internal/agent/agent.go:342-351 | with inline IOCs the written file's flag follows the named file's flag |
| Agent.ArgvStartsWithIocFlags | agents/internal/agent/agent.go:337-351 | the IOC flags come right after the head |
| Agent.HashFlag | agents/internal/agent/agent.go:365-368 | a non-blank `snapshot_hash` yields `--snapshot-hash=true` or `=false` as it parses |
| Agent.BlankArgumentsBareCommand | agents/internal/agent/agent.go:336-383 | a job whose arguments are all blank gets the bare command |
| Agent.PickIsNewest | agents/internal/agent/agent.go:220-244 | the choice is the directory with the latest time, the first one on ties, and nothing exactly when there is no directory |
| Agent.NewestUnique | agents/internal/agent/agent.go:220-244 | the newest-directory choice is the only index that is newest |
| Agent.NewestDir | agents/internal/agent/agent.go:220-244 | the search loop computes the newest-directory result, or the listing error, or "no case directory found" |
| Agent.EntryNamesDistinct | agents/internal/agent/agent.go:268-274 | archive member names sit under the directory's base name, and distinct relative paths give distinct names |
| Agent.UploadFileName | agents/internal/agent/agent.go:208 | the uploaded archive's file name is `<job id>.tar.gz` |
| Agent.JobTimeout | agents/internal/agent/agent.go:177-184 | the timeout is 30 minutes unless a non-blank `timeout` argument parses, and then it is the parsed value |
| Agent.HandleJobGate | agents/internal/agent/agent.go:172-218 | a non-triage job is ignored. A delivered job ran with the built plan and timeout, packed the newest directory under `<job id>.tar.gz`, and was answered 200. "Unauthorized" means the upload got 401 |
| Agent.LoadAuthValidity | agents/internal/agent/agent.go:398-415 | cached credentials are used only when both fields are non-empty, and then as cached |
| Agent.TurnChangesAuthOnlyOnRefusal | agents/internal/agent/agent.go:86-115 | the credentials change only after a 401 on poll or upload and a successful new enrollment, and then to that enrollment. Conversely, a 401 on poll, or a job whose upload gets 401, followed by a successful enrollment switches to the new credentials |
| Agent.NoJobNoWork | agents/internal/agent/agent.go:101-104 | a poll that yields no job or a job with an empty id does nothing and keeps the credentials |
| Agent.NoContentIsNoJob | agents/internal/agent/agent.go:159-161 | a 204 answer to a poll reads as a job with an empty id |
| Agent.AuthFromEnrollment | agents/internal/agent/agent.go:76-115 | after any number of rounds the credentials are the initial ones or one of the rounds' enrollments |
| Agent.Run | agents/internal/agent/agent.go:55-116 | the agent loop over the given rounds computes the run function from defaults, cache or first enrollment |
| Ioc.LoadPatterns | analyzers/ioc/ioc.go:33-56 | the loop over the lines computes the pattern list, or the open or scan error, or "no patterns" |
| Ioc.PatternsSpec | analyzers/ioc/ioc.go:42-54 | "no patterns" holds exactly when every line is blank. Otherwise the patterns are exactly the non-empty trimmed lines, each clean |
| Ioc.FindFirstLine | analyzers/ioc/ioc.go:78-84 | the line loop returns the first line holding the pattern |
| Ioc.FirstLineSpec | analyzers/ioc/ioc.go:78-84 | the line found is the first containing the pattern, or empty when none does |
| Ioc.FoundOnSomeLine | analyzers/ioc/ioc.go:76-84 | a single-line pattern found in a file is found on a line, so its first line is never skipped |
| Ioc.MatchesInSpec | analyzers/ioc/ioc.go:76-92 | every match names a given pattern found in the content, the artifact and its first line, and every pattern found has a match |
| Ioc.ReadableMembers | analyzers/ioc/ioc.go:68-74 | an artifact is scanned exactly when it is listed and its file can be read |
| Ioc.ScanArtifacts | analyzers/ioc/ioc.go:58-101 | the nested loops compute the scan result |
| Ioc.MatchArtifact | analyzers/ioc/ioc.go:76-91 | the loop over the patterns yields one artifact's matches, as `MatchesIn` specifies them |
| Ioc.Contained | analyzers/ioc/ioc.go:76-77 | the patterns kept are exactly those that occur in the content, in pattern order |
| Ioc.MatchesInContained | analyzers/ioc/ioc.go:76-91 | the matches in one artifact are one per contained pattern, in pattern order, each with its first line |
| Ioc.ScanAllComplete | analyzers/ioc/ioc.go:68-93 | every pattern occurring in a readable artifact has a match naming that artifact |
| Ioc.ScanSpec | analyzers/ioc/ioc.go:58-101 | a pattern error is the scan's error. Otherwise the result names the IOC file, counts the readable artifacts, has at most scanned times patterns matches, each of which comes from some artifact, and has a match for every pattern that occurs in a readable artifact |
| Timeline.WriteJSONL | analyzers/timeline/timeline.go:30-87 | returns the first mkdir, create or flush error, else the stream's path. The events reach the writer unless the file could not be created |
| Timeline.EventsSpec | analyzers/timeline/timeline.go:48-81 | the stream is the start event at the given or current time, one event per artifact in order carrying its fields, and the finish event |
| Timeline.ArtifactEventsSpec | analyzers/timeline/timeline.go:61-72 | one middle event per artifact, in order |
| Timeline.FinishEventSpec | analyzers/timeline/timeline.go:74-81 | the finish event names the case and holds the artifact count as decimal text that reads back |
| Triage.CollectorNames | core/internal/triage/triage.go:46-67 | seven collectors run when snapshot paths are set and six otherwise, and the snapshot runs exactly when paths are set |
| Triage.CollectedInOrder | core/internal/triage/triage.go:46-90 | the artifacts are host info, OS release, the snapshot (when configured), process, network, sessions and persistence, in that order |
| Triage.GatheredMembers | core/internal/triage/triage.go:69-91 | an artifact is collected exactly when some collector contributed it |
| Triage.FailureRecorded | core/internal/triage/triage.go:77-90 | a failing collector contributes exactly one `errors/<name>.txt` artifact carrying its error, and a succeeding one its own artifacts |
| Triage.GatherAll | core/internal/triage/triage.go:69-91 | the collector loop stops with the context's error when cancelled before finishing, else gathers every contribution |
| Triage.CollectorsAccountedFor | core/internal/triage/triage.go:69-91 | every failing collector's error artifact is in the result, and every result artifact comes from some collector |
| Triage.ScanPhase | core/internal/triage/triage.go:102-122 | the IOC phase adds the scan artifact and the match count as the IOC step says |
| Triage.RunIoc | core/internal/triage/triage.go:102-122 | with an IOC file and a successful scan the manifest's only metadata is the match count, which reads back, and the scan artifact is listed when its digest was taken. Otherwise there is no metadata and no new scan artifact |
| Triage.RunTimeline | core/internal/triage/triage.go:124-136 | the timeline holds two events more than the manifest artifacts written before it, one per artifact in order, including the scan's. When written and digested it is the manifest's last artifact |
| Triage.RunErrors | core/internal/triage/triage.go:38-140 | a failed case directory, cancellation and a failed manifest are the only errors, in that order |
| Triage.RunShape | core/internal/triage/triage.go:93-142 | the result names the case and its directory and holds the collected artifacts. The manifest lists them, then the scan and timeline entries |
| Triage.ManifestLayout | core/internal/triage/triage.go:102-136 | the manifest extends the collected artifacts by at most two entries, the scan's before the timeline's |
| Triage.Run | core/internal/triage/triage.go:38-143 | the pipeline computes the triage run function |

## Left out

- HTTP, JSON, multipart, TLS and the server's mutex: each handler is one atomic state change on decoded inputs (`Request`, an optional body, an optional part list).
- `uuid.NewString`: the fresh agent id, token and job id are parameters. Their freshness is a precondition of `HandleEnroll` and `HandleJobs`.
- Clocks: one `now` per operation. Error artifacts, the manifest, scan and timeline entries of one triage run share it.
- SHA-256, gzip and tar byte streams: digests and I/O outcomes are parameters, and the archive is a list of member names and sizes.
- `filepath.Clean` and `ToSlash`: paths are taken as already clean, and joining inserts one slash between non-empty parts.
- Agent.JobTimeout: `time.ParseDuration` is not modelled, and its parsed value is a parameter.
- `strconv.ParseBool` is modelled as the set of spellings it reads as true. A rejected string reads as false, as in the source.
- `os/exec`, `time.Sleep` and the HTTP client: the agent's loop runs over a finite sequence of rounds. Each round gives the poll response, enrollment outcome and job environment.
- `saveAuth`, the error-file writes in the triage loop and the ignored `MkdirAll` calls: their results are discarded by the source, and are not modelled.
- The scanner's token-size limit: it is one possible scan error of the line file.
- The simple collectors (host info, OS release, processes, network, sessions, persistence): they are an oracle from collector name to artifacts or an error. `collectors/system/os_release.go` and the others are not part of this model.
- `evidence.WriteManifest`: reduced to an optional error.
- Timeline.WriteJSONL: requires at most 2^63-1 artifacts, which every Go slice satisfies.
- Agent.NewestDir: requires non-empty entry names, as every directory listing has.
- Triage uses the timeline's specification functions rather than calling `WriteJSONL`.
- Go's distinction between a nil and an empty map or slice.
- The walk and file I/O of `tarGzDir` beyond member naming.
- FsSnapshot.SnapshotWithinBudgets: byte counts are unbounded integers. The source adds `totalCopied+info.Size()` in `int64` (collectors/linux/fs_snapshot.go:248). With budgets set near 2^63 and a very large file, that sum can wrap negative, and the source then copies past the total budget. The model never wraps, so its budget clauses (in `Within` as well) hold only for sums that fit an `int64`.
- ServerApp.Server.Persist: every write is taken to succeed. `persistLocked` returns the error of writing agents.json or jobs.json, but every caller discards it, so such a failure can leave a file stale. The ghost disk fields always receive the live agents and jobs.
- Agent.HandleJob: the output base is used as given. The source passes it through `filepath.Join` (agents/internal/agent/agent.go:189), which cleans it, so the default `./agent-evidence` becomes `agent-evidence` there.
- Byte strings: Go strings are bytes, the model's are characters. `unicode.IsSpace` on non-ASCII or invalid UTF-8 text, and byte-wise matching in binary artifacts, are taken as character operations.
- The CLI wiring (`core/internal/cli`, the `main` packages) and the Rust hasher are not part of this model.

## Findings

| source | as written | input that shows it | evidently intended | confidence | as-written member | corrected member |
|---|---|---|---|---|---|---|
| collectors/linux/fs_snapshot.go:345-365 | negating the minimum `int64` wraps back to itself. The remainders are then negative, so the digits come out below `'0'`, and the same loop is in analyzers/timeline/timeline.go:89-109 | -9223372036854775808 | decimal text `-9223372036854775808` | high for the input shown; not executed; unreachable from the callers, which pass non-negative counts | Common.AsWrittenGarblesMin | Common.FormatDecimal |
