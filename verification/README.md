# RBLN container toolkit: a verified model

This project models the parts of the RBLN container toolkit where a mistake is
hard to see: what the daemon discovers on the host, what it writes into CDI
specifications and runtime configurations, and how its goroutines shut down.

- **Discovery.** `Reachability` and `ElfResolver` are the breadth-first search
  over DT_NEEDED entries; `Libraries` re-roots paths and closes a set of
  libraries under its dependencies; `DaemonRoots` derives the daemon's roots.
  `Strings`, `Paths` and `Numbers` define the text functions of Go's standard
  library that these results depend on (`filepath.Clean`, `Join`, `Rel`, `Base`,
  `strconv.Atoi`, `sort.Strings`), so that path claims are claims about texts.
- **Change detection.** `BuildId` parses ELF notes (System V gABI, chapter 5,
  "Note Section") and prints fingerprints; `LibraryProbe` takes a snapshot;
  `Watcher` compares snapshots, with every Go map a heap object that outside code
  may overwrite at any time.
- **Daemon.** `Lifecycle` interleaves the main, signal-handler, watcher and
  cleanup goroutines step by step, and `Shutdown` says exactly when its order can
  break and how fast it gets to its end. `SpecWriter` interleaves any number of
  concurrent writers and readers of a spec file over inodes and directory entries.
- **Runtime configuration.** `ConfigTree`, `ContainerdConfig` and `DockerConfig`
  edit and judge config files; `Deployment` runs deploys, shutdowns and kills over
  them; `CrioConfig` is CRI-O's layered configuration and `CrioDeployment` its
  deploy cycles.
- **CDI.** `CdiSpec`, `Devices` and `Generator` build specifications (edits as in
  the CNCF Container Device Interface specification, section "CDI JSON Specification");
  `Soname`, `Symlinks` and `LinkHook` follow a symlink from the host's SONAME to
  the container.

Protocols are functions from a state and a step to the next state; a run is a list
of steps, and the main results quantify over all runs. Code that changes things in
place is a class or a method with loops, proved equal to a specification function
whose properties are then proved as lemmas.

What is assumed of the outside world is always an argument: what the filesystem
answers, what the ELF, glob, TOML and JSON libraries compute, what the version
probe and the driver's topology say, and which writes fail. Two assumptions concern
the TOML and JSON libraries: rendering and parsing a tree gives it back up to Go's
array typing (`Codec.Faithful`), and the text of the CRI-O drop-in is read as the
tree it stands for (`Crio.Understood`).

Where the code falls short of its documentation the code is followed, and the
exact boundary is proved:

- README.md:314-320 says a node with CDI disabled is restarted once. Over any run
  it is restarted exactly once if a rewrite is directly followed by the restart,
  and never otherwise (`RestartedExactly`); a deploy killed in between leaves the
  restart out for good (`DeployRestartsUnlessKilled`).
- On CRI-O the restart happens at most once, and once more for each time the
  drop-ins cannot be listed, if and only if no later drop-in takes the spec dir away
  again; otherwise every deploy restarts the runtime (`RestartedAtMostOnceExactly`,
  `EveryDeployRestarts`).
- Revert restores the original bytes exactly when the config file existed to begin
  with (`RevertRestoresOriginal`).
- The handler's default branch (internal/daemon/daemon.go:161-167) can break the
  order of readiness and cleanup exactly while main has not opened the gate and a
  signal may still reach the handler (`OrderBreaksExactly`). After a timed-out wait
  a refresh callback can overlap or follow the cleanup exactly if the watcher is in
  one or has decided to make one (`CallbackAfterCleanup`); specs can be written then
  exactly if the callback was past its own check of the context when main cancelled
  that (`RegenerationAfterCleanup`).
- The fold of common edits is called semantically equivalent
  (internal/cdi/generator.go:139-149). With devices disabled it is, for exactly the
  selections of at most one entry (`KubernetesSelections`); in general for the empty
  selection and exactly those with one empty entry that the common edits may as well
  come before (`FoldPreservesSelection`).
- The hook removes an old entry before it creates the link, so a link that fails can
  leave the entry gone and parents made; `FailedLink` says exactly when it does.
- The snapshot comparison misses changes exactly when the baseline holds an empty
  fingerprint (`DifferIsChange`), which the probe never produces
  (`FingerprintIdentifies`).
- `align4` overflows for the three largest uint64 values (`Align4Overflows`), none
  of which a 32-bit size reaches (`Align4IsLeast`).
- A library's own dependencies are searched from the file that was found exactly
  when its path does not climb out of the search root, or there are no two roots to
  tell apart (`StartIsWhereItWasFound`); `ResultSearchedElsewhere` is a host where it
  is not.
- The path keys of glob discovery and of the ELF resolver agree exactly on paths
  that do not repeat the search root textually, with paired roots (`KeysAgree`);
  the daemon's roots are always paired (`DaemonRootsPaired`).

## Model

| member | source | states |
|---|---|---|
| ElfResolver.Resolver.Run | internal/discover/elf.go:50-84 | For every finite graph, cycles included, the search terminates and returns libraries at pairwise different places other than the start, covering exactly what is reachable, in non-decreasing DT_NEEDED distance; unreadable nodes have no successors |
| ElfResolver.Resolver.ResolveLibrary | internal/discover/elf.go:89-110 | The first search path that has the name wins, a link counting as its real path; "" exactly when none has it |
| ElfResolver.Resolver.ResolvesToFirst | internal/discover/elf.go:89-110 | In terms of Lstat alone: a name resolves to nothing if and only if on every search path it is absent or a link that cannot be followed; otherwise the file read is the first that is not so, or its real path, and a plain file keeps its search path |
| ElfResolver.Resolver.ExactLibraries | internal/discover/elf.go:66-83 | If places determine resolved paths, the result is exactly the set of libraries needed by reachable nodes other than the start, without repeats |
| ElfResolver.Resolver.CleanPathsStayApart | internal/discover/elf.go:72-76 | Places also determine resolved paths whenever those are clean, whatever the rest of the filesystem looks like |
| ElfResolver.Resolver.TidyPlacesStayApart | internal/discover/elf.go:89-110 | Places determine resolved paths on every filesystem with clean roots, search paths and real paths, links out of the root included |
| ElfResolver.Resolver.ExactOnTidyFilesystem | internal/discover/elf.go:50-110 | So on every such filesystem a run returns exactly the libraries needed by reachable nodes other than the start, without repeats |
| ElfResolver.Resolver.FullIsTheFileFound | internal/discover/elf.go:91-107 | The search continues from the very file Lstat found, or the real file behind a link even outside the root |
| Reachability.FrontierDelivers | internal/discover/elf.go:57-83 | An exhausted worklist has listed each reachable node once, nearest first |
| Reachability.FrontierAdvance | internal/discover/elf.go:57-83 | Expanding a node keeps the invariant that everything as near as the next node has been visited |
| Paths.RelRoundTrip | internal/discover/elf.go:101-105 | "/" + Rel(root, p) joined below the root is p again, for every clean root and path |
| Paths.JoinCleanAbs | internal/discover/library.go:135-157 | Joining below a clean root is concatenation of texts and of components |
| Paths.DirOfAbs | internal/cdi/generator.go:296-305 | The parent of a clean path drops its last component; that of a bare name is "." |
| Paths.RelFromAbove | internal/discover/elf.go:101 | filepath.Rel refuses a base whose name it cannot know |
| Paths.EdgeCases | internal/discover/library.go:99-194 | Empty and root paths as Go documents them; cleaning never changes whether a path is absolute |
| Paths.CleanRelative | internal/discover/library.go:99-194 | A relative path that climbs and then names something is clean already |
| Paths.BaseIgnoresSlash | internal/discover/library.go:260 | A trailing slash does not change the base name |
| Libraries.Discoverer.KeysAgree | internal/discover/library.go:125-194 | A file's glob key equals its resolver key if and only if the roots are paired and the path does not repeat the search root |
| Libraries.Discoverer.MappingsInvert | internal/discover/library.go:99-158 | With paired roots, mapping a found file to its host path and back gives the file read, and its container path is the root-relative path, or the same name in the isolation directory |
| DaemonRoots.DaemonRootsPaired | cmd/rbln-ctk-daemon/root.go:300-309 | Every host and driver root give the daemon valid, paired roots |
| DaemonRoots.WatcherSeesGeneratorView | cmd/rbln-ctk-daemon/root.go:276-319 | The watcher globs the directory the generator searches |
| Libraries.Discoverer.DiscoverDependencies | internal/discover/library.go:229-275 | Results have distinct paths, none an input path, none a glibc name; everything a search from an input reaches is an input, a result, or given up as glibc |
| Libraries.Discoverer.DependencyRecord | internal/discover/library.go:262-271 | A dependency is recorded with its file name, its host path, and the container path of the mapping |
| Libraries.Discoverer.NeedsOfReachable | internal/discover/library.go:246-272 | Whatever any reachable node needs, glibc nodes included, is an input, a result or glibc, also where links lead out of the search root |
| Libraries.Discoverer.HostPathKeepsName | internal/discover/library.go:160-194 | Re-rooting a resolved path keeps its file name, outside the search root too |
| Libraries.Discoverer.StartIsWhereItWasFound | internal/discover/library.go:138-158 | A result is searched from the very file that was found if and only if its path does not climb out of the search root, or the roots are not two different ones |
| Libraries.ResultSearchedElsewhere | internal/discover/library.go:138-158 | On a host with a link out of a re-rooted driver root, with every path recorded as discovery does, a result is searched from another file than the one found |
| Libraries.Discoverer.ClosedUnderNeeds | internal/discover/library.go:226-275 | Inputs and results together are closed under resolvable DT_NEEDED entries, up to glibc, for every member searched from where it was found |
| Libraries.Discoverer.MatchesGlibc | internal/discover/library.go:364-372 | A name is excluded exactly when some pattern matches it; malformed patterns match nothing |
| BuildId.ParseBuildIdNote | internal/discover/umdfingerprint.go:187-212 | On arbitrary bytes the walk stays in bounds, terminates and answers with the first usable build id of the complete notes, else the no-build-id error |
| BuildId.NotesOfEncoding | internal/discover/umdfingerprint.go:188-211 | Every concatenation of well-formed padded notes, in either byte order, is read back note by note |
| BuildId.NotesCover | internal/discover/umdfingerprint.go:188-211 | Every byte string is such a concatenation followed by bytes holding no complete note |
| BuildId.ParseFindsFirst | internal/discover/umdfingerprint.go:179-213 | Parsing an encoding yields the first usable build id of the encoded notes |
| BuildId.BuildIdOf | internal/discover/umdfingerprint.go:207-213 | The answer is the hex of the first non-empty type-3 GNU descriptor; an error means there is none |
| BuildId.IsBuildIdMeans | internal/discover/umdfingerprint.go:207 | A note is a build id if and only if it is a non-empty note of type 3 owned by "GNU", padded with any number of NULs |
| BuildId.ParseAnswersDescriptor | internal/discover/umdfingerprint.go:187-212 | A section is answered with the descriptor of its first such note, whatever is around it |
| BuildId.HexSpells | internal/discover/umdfingerprint.go:208 | Two lower-case digits a byte, the high one first |
| BuildId.Align4IsLeast | internal/discover/umdfingerprint.go:215-218 | For every 32-bit size, the least multiple of 4 not below it, without overflow |
| BuildId.Align4Overflows | internal/discover/umdfingerprint.go:215-218 | Rounding up works for a uint64 if and only if it is not one of the three largest |
| BuildId.FingerprintIdentifies | internal/discover/umdfingerprint.go:129-138 | Two readable libraries have equal fingerprints if and only if they have the same build id, or, where neither has one, the same size and mtime; fingerprints are never empty |
| LibraryProbe.View.ProbeRblnLibraries | internal/discover/umdfingerprint.go:67-110 | The snapshot holds exactly the resolved targets of glob matches that can be fingerprinted, each examined once however many links lead to it |
| LibraryProbe.View.AllMatchesMeans | internal/discover/umdfingerprint.go:72-85 | The matches are exactly what the two librbln globs find in the directories |
| Watcher.Clone | internal/daemon/watcher.go:161-164 | A copy with the same entries that nobody else refers to |
| Watcher.VersionsDiffer | internal/daemon/watcher.go:249-259 | The comparison loop decides difference as Go reads missing keys |
| Watcher.DifferIsChange | internal/daemon/watcher.go:247-259 | The comparison detects every change of a baseline if and only if the baseline has no empty value |
| Watcher.Watcher.Status | internal/daemon/watcher.go:142-154 | A reader gets a private copy of the retained baseline |
| Watcher.Watcher.Tick | internal/daemon/watcher.go:173-238 | Whatever the prober, the callback and readers do to maps they hold, a tick compares the retained baseline with the probed snapshot as returned, reports exactly these, and rolls back on failure |
| Watcher.Watcher.Run | internal/daemon/watcher.go:119-139 | With arbitrary outside interference between and during ticks, the calls made, the retained baseline and the last error are those of the replayed events |
| Watcher.RunsAcknowledge | internal/daemon/watcher.go:182-232 | Every run refines the acknowledged-snapshot specification: the baseline retained is the one last acknowledged, the error is that of the latest attempt, every call reports a real change against what was acknowledged before it |
| Watcher.RealChangeAt | internal/daemon/watcher.go:215-219 | Call i gets as PrevVersions the snapshot acknowledged before it, and a different Versions |
| Watcher.FiresExactlyOnChange | internal/daemon/watcher.go:196-219 | A live tick calls back if and only if its snapshot differs from the acknowledged one |
| Watcher.NothingAfterCancel | internal/daemon/watcher.go:128-138 | Nothing after a cancelled turn affects the run |
| Watcher.SettledChange | internal/daemon/watcher.go:221-232 | A change that stays is reported on every tick up to the first success, always against the same baseline, and never again |
| Lifecycle.CanTransitionTo | internal/daemon/state.go:67-78 | The lookup loop accepts exactly the listed transitions |
| Lifecycle.TransitionTable | internal/daemon/state.go:50-56 | The five transitions there are |
| Lifecycle.StateMachine.TransitionTo | internal/daemon/state.go:106-116 | An allowed request moves to the target; a refused one changes nothing |
| Lifecycle.NeverBackwards | internal/daemon/state.go:50-56 | Over any requests the state only moves forward, Stopped is final, and ShuttingDown is entered through Running only |
| Lifecycle.ClosedAtMostOnce | internal/daemon/daemon.go:153-239 | In every interleaving, early exits included, no channel is closed twice |
| Lifecycle.ClosedWhen | internal/daemon/daemon.go:153-215 | In every reached state each channel is closed exactly from the point on that entitles its owner to |
| Lifecycle.OrderlyRuns | internal/daemon/daemon.go:179-239 | Without an early exit: ready implies Running, the observed states are a prefix of the one lifecycle or the lock failure, cleanup starts at most once, in ShuttingDown, under the PID lock |
| Lifecycle.CleanupFollowsCallbacks | internal/daemon/daemon.go:221-238 | If the wait ended through watcherDone, no refresh callback overlaps or follows cleanup in any continuation |
| Lifecycle.NoCallbackAfterDone | internal/daemon/daemon.go:228-230 | Once main has seen the watcher finish, no run continues with a callback |
| Shutdown.WakingProgress | internal/daemon/daemon.go:153-215 | In every reached waiting state with a signal or a cancelled context, no step takes main further from waking, the waking step brings it closer, and no other step disables it |
| Shutdown.WakesUp | internal/daemon/daemon.go:153-215 | No signal is lost: in every continuation, main is awake after three waking steps, and until it is the next one is enabled |
| Shutdown.ShutdownIsBounded | internal/daemon/daemon.go:217-279 | Every continuation from an awake main holds at most seven steps of main, and until it returns main has an enabled step of its own, even if watcher and cleanup hang |
| Shutdown.RunIsBounded | internal/daemon/daemon.go:117-239 | Every run holds at most fourteen steps of main, which is never stuck except where it waits for a signal |
| Shutdown.ShutdownHasACause | internal/daemon/daemon.go:153-215 | Main goes past its wait only after a signal or with its context done, or because it never got the lock |
| Shutdown.WaitsForCleanup | internal/daemon/daemon.go:262-278 | Main goes on to Stopped only with no cleanup running, or after the timeout |
| Shutdown.CancelledWatcherEnds | internal/daemon/watcher.go:119-139 | Each step of a cancelled watcher brings it closer to its end, at most four in all, and the end closes its channel |
| Shutdown.EarlyExitEnds | internal/daemon/daemon.go:161-167 | An early exit is carried through: at most five steps of the handler end the process, and no other step disturbs it |
| Shutdown.NobodyIsStuck | internal/daemon/daemon.go:153-211 | A handler that has taken something, and a started watcher, always have a step to take |
| Shutdown.MovesMade | internal/daemon/watcher.go:119-238 | The watcher and the handler make no moves but those listed |
| Shutdown.WatcherCanMove | internal/daemon/watcher.go:119-238 | The watcher can make each move listed for it |
| Shutdown.HandlerCanMove | internal/daemon/daemon.go:153-177 | The handler can make each move listed for it |
| Shutdown.OrderBreaksExactly | internal/daemon/daemon.go:157-177 | From a reached state without an early exit, readiness or cleanup can get out of order if and only if the gate is closed and a signal may still reach the handler; without cleanup, only until readiness is published |
| Shutdown.EarlyExitCleansWhileStarting | internal/daemon/daemon.go:161-167 | A cleanup starts while Starting in some run if and only if there is a cleanup to run |
| Shutdown.CallbackAfterCleanup | internal/daemon/daemon.go:228-238 | When cleanup starts, some continuation has a callback overlap or follow it if and only if the watcher is in one or has decided to make one |
| Shutdown.RegenerationAfterCleanup | cmd/rbln-ctk-daemon/root.go:262-270 | Specs are written during or after main's cleanup in some continuation if and only if the callback was past its own check of the context when main cancelled that |
| Shutdown.TimeoutAllowsOverlap | internal/daemon/daemon.go:229-238 | Some run without an early exit writes specs during a running cleanup if and only if there are a watcher and a cleanup |
| SpecWriter.ReadersSeeWholeSpecs | internal/cdi/writer.go:162-171 | However writers interleave, fail and crash, a reader that read to the end got the initial file or one writer's complete spec with mode 0644 |
| SpecWriter.LastRenameWins | internal/cdi/writer.go:227-236 | At every moment the target is the complete spec of the last writer whose rename took effect, or the initial file |
| SpecWriter.OutcomesAreHonest | internal/cdi/writer.go:197-247 | Success means published, failure means not; the temp file is gone unless its removal failed |
| SpecWriter.FailsOnlyByFailure | internal/cdi/writer.go:178-247 | In every run, a Write has failed only if one of its own calls has |
| SpecWriter.WriteCanSucceed | internal/cdi/writer.go:178-247 | From every state of every run, a Write that has neither failed nor crashed can run to success undisturbed, and then the target is its complete spec, with mode 0644, and its temp file is gone |
| SpecWriter.ReaderCanFinish | internal/cdi/writer.go:162-171 | In every state, a reader that finds the target can read all of it |
| SpecWriter.FailurePoints | internal/cdi/writer.go:196-247 | Where calls may fail and crashes come, and what giving up does with the temp file |
| SpecWriter.TempIsPrivate | internal/cdi/writer.go:197-222 | Until its mode is set, a spec being written has mode 0600 |
| SpecWriter.OnlyRenameChangesTarget | internal/cdi/writer.go:202-229 | No other step changes which file the target names or what it holds |
| ContainerdConfig.Config.CriSection | internal/runtime/containerd_config.go:65-83 | The CRI table is found, or made with its parents, and nothing else changes |
| ContainerdConfig.Config.SpecDirs | internal/runtime/containerd_config.go:100-115 | The string entries of a list, in order; only a list counts as present |
| ContainerdConfig.Config.Enable | internal/runtime/configure.go:235-250 | The in-place edit computes the specified tree |
| ContainerdConfig.EnableCdiInContainerdConfig | internal/runtime/configure.go:229-253 | Parsing, editing and rendering a text, with both error cases |
| ContainerdConfig.EditConverges | internal/runtime/configure.go:224-253 | Read back, the edited config is ready for every version, keeps the operator's string dirs in order with at most one appended, and is a fixed point of the edit |
| ContainerdConfig.EditIsMinimal | internal/runtime/containerd_config.go:25-46 | Every other setting keeps its value, and none is added, if and only if plugins and the CRI entry are tables or absent |
| ConfigTree.SpaceCodes | internal/runtime/configure.go:570-585 | The white space Go trims, by code point |
| ContainerdConfig.EditedTextConverges | internal/runtime/configure.go:423-455 | The text written is judged ready by the check for every version and rewriting it changes no byte |
| ContainerdConfig.ReadyMeans | internal/runtime/configure.go:423-455 | Any config is ready if and only if a list of spec dirs in it covers the daemon's, and it enables CDI or says nothing while the version is known to be 2.0 or later |
| ContainerdConfig.ContainsCleanPath | internal/runtime/containerd_config.go:140-147 | Some entry equals the target after cleaning |
| DockerConfig.DaemonJson.EnableCdi | internal/runtime/configure.go:371-384 | features.cdi is set, keeping other features; a non-table features is replaced |
| DockerConfig.ConfigureDaemonJson | internal/runtime/configure.go:319-339 | Decoding, editing and encoding daemon.json, with both error cases |
| DockerConfig.JsonEditConverges | internal/runtime/configure.go:472-505 | The text written is ready for every version and a fixed point of the edit |
| DockerConfig.DockerReadyMeans | internal/runtime/configure.go:472-505 | Any config is ready if and only if it enables CDI, or does not disable it while the version is known to be 28.2 or later |
| DockerConfig.ReadyForEveryVersion | internal/runtime/configure.go:485-491 | Readiness is independent of the version if and only if features.cdi is true |
| DockerConfig.RemoveUndoesEnable | internal/runtime/configure.go:636-648 | Removing the setting undoes adding it if and only if there was no features entry, or a non-empty table without the current and legacy keys |
| Deployment.RestartedAtMostOnce | cmd/rbln-ctk-daemon/root.go:403-479 | Over any sequence of deploys, shutdowns and kills, whatever the probe answers and whichever writes fail, at most one restart is attempted, and only after a rewrite |
| Deployment.ReadyNodeUntouched | cmd/rbln-ctk-daemon/root.go:419-431 | A node ready for every version is neither rewritten nor restarted by any run |
| Deployment.RestartedExactly | cmd/rbln-ctk-daemon/root.go:426-476 | Over any such run the runtime is restarted exactly once if some rewrite is directly followed by the restart, and never if not |
| Deployment.DeployRestartsUnlessKilled | cmd/rbln-ctk-daemon/root.go:403-479 | On a disk that is not ready, an undisturbed deploy restarts once; killed after the rewrite, no continuation ever restarts |
| Deployment.ConfiguredMeans | internal/runtime/configure.go:176-339 | What Configure writes for any file: the rendered edit of its tree, or nothing if it cannot be parsed or rendered |
| Deployment.FirstDeploy | cmd/rbln-ctk-daemon/root.go:403-479 | On a node without a config file an undisturbed deploy writes one and restarts the runtime, unless the version is known to have CDI on by default, when it touches nothing |
| Deployment.FailedStep | cmd/rbln-ctk-daemon/root.go:410-441 | A step that fails ends the deploy and changes nothing on disk |
| Deployment.MissedRestartStaysMissed | cmd/rbln-ctk-daemon/root.go:426-476 | Once a rewrite has gone by without its restart, no later deploy restarts |
| Deployment.SpecsInPlace | cmd/rbln-ctk-daemon/root.go:481-510 | After any run the specs are there exactly if the last generation or shutdown was a generation, kills leave them, and they are always there from the readiness check to the restart |
| Deployment.RevertRestoresOriginal | internal/runtime/configure.go:537-567 | After any run that rewrote the config, one Revert restores the original bytes if and only if the file existed |
| Deployment.RevertWithoutBackup | internal/runtime/configure.go:552-649 | Without a backup the CDI lines or the CDI features are dropped, and a file that cannot be read or written back is left alone |
| Deployment.KeptLinesMeans | internal/runtime/configure.go:570-585 | Exactly the lines that start, after white space, with a CDI key are dropped, the others kept in order |
| Deployment.Host.Setup | cmd/rbln-ctk-daemon/root.go:403-479 | setup takes exactly the steps its outcomes determine, and these are a run of the step protocol to its final state |
| Deployment.Host.Configure | internal/runtime/configure.go:156-207 | Backup, then rewrite; a failing write leaves the file as it was |
| Deployment.Host.Revert | internal/runtime/configure.go:612-656 | The backup first, else the stripped config; nothing on a parse error |
| CrioConfig.CrioConfigFiles | internal/runtime/crio_config.go:72-101 | The main file, then every non-directory drop-in in lexical order; an error only if stat or listing fails |
| CrioConfig.CrioEffectiveSpecDirs | internal/runtime/crio_config.go:113-130 | The dirs of the highest-precedence readable file that sets the key |
| CrioConfig.CrioScansSpecDir | internal/runtime/crio_config.go:49-65 | Ready if nobody sets the key or the winning file covers the spec dir |
| CrioConfig.DropInDecides | internal/runtime/configure.go:261-305 | With the drop-in in place, CRI-O scans the spec dir if and only if no lexically later drop-in sets the key or the last that does covers it |
| CrioDeployment.Crio.ReadyOnceWritten | internal/runtime/crio_config.go:49-65 | Once the generated drop-in is written, the node is ready if and only if no later drop-in sets the key or the last that does covers the spec dir |
| CrioDeployment.Crio.RestartedAtMostOnceExactly | cmd/rbln-ctk-daemon/root.go:403-479 | On a node that is not ready, every run restarts at most once, plus once for each check that cannot list the drop-ins, if and only if that condition holds of the files found there |
| CrioDeployment.Crio.EveryDeployRestarts | cmd/rbln-ctk-daemon/root.go:426-476 | Where it does not, any number of undisturbed deploys restart the runtime as many times |
| CrioDeployment.Crio.ReadyNodeUntouched | cmd/rbln-ctk-daemon/root.go:426-431 | No run in which the drop-ins can be listed rewrites or restarts a ready node |
| Strings.SortStrings | internal/runtime/crio_config.go:98 | A sorted permutation |
| Strings.LessEqMeans | internal/runtime/crio_config.go:98 | The order is decided by the first differing character, a prefix coming first |
| Generator.FirstClaimsDistinct | internal/cdi/generator.go:269-311 | No container path is mounted twice |
| Generator.FirstClaimsCover | internal/cdi/generator.go:277-311 | Every claimed container path is mounted |
| Generator.EarliestClaimWins | internal/cdi/generator.go:272-311 | A claim becomes a mount if and only if it comes before all other claims for its path, providers before libraries |
| Generator.ProvidersClaim | internal/cdi/generator.go:277-288 | In order, each provider claims its container path and then its driver file, if any, at the host path |
| Generator.Generator.LibraryClaimed | internal/cdi/generator.go:290-310 | A library claims its own container path; one that is a link claims the place discovery gives its real file |
| Generator.Generator.MountedSafely | internal/cdi/generator.go:554-570 | Every mount is a read-only bind mount without set-uid or device files, with the SELinux label if there is one |
| Generator.Generator.FlagArgsMeans | internal/cdi/generator.go:619-728 | Hook arguments are the flag before each value, in order |
| Generator.Generator.SpecHeader | internal/cdi/generator.go:128-137 | The version and kind of the spec, and the stage and program of its hooks |
| Generator.Generator.BuildCommonEdits | internal/cdi/generator.go:263-329 | Mounts are those of the first claims, then every tool; the symlink hook precedes the ldcache hook, whose folders are the sorted, duplicate-free parents of paths first mounted by a library; no environment variable is ever emitted |
| Generator.Generator.CreateLdcacheHook | internal/cdi/generator.go:610-640 | The hook names exactly the folders, sorted, whatever order the map is walked in |
| Generator.Generator.Generate | internal/cdi/generator.go:128-155 | The spec is the common edits with the entries of the stably sorted device classes, folded when devices are disabled |
| Generator.Generator.KubernetesFold | internal/cdi/generator.go:139-152 | With devices disabled the fold keeps every single selection's meaning and leaves no empty entry unless there was nothing to inject |
| Generator.Generator.KubernetesSelections | internal/cdi/generator.go:139-149 | Of the selections from the folded Kubernetes spec exactly those of at most one entry inject what the unfolded spec would |
| CdiSpec.SpecDocument.FoldCommonEditsIntoEmptyDevices | internal/cdi/generator.go:228-242 | The in-place loop computes the specified fold |
| CdiSpec.FoldPreservesSingles | internal/cdi/generator.go:224-242 | Single selections are preserved if and only if there is nothing to fold, nothing to fold into, or every entry was empty |
| CdiSpec.FoldFillsDevices | internal/cdi/generator.go:232-241 | An empty entry is left if and only if there was one and nothing to fold |
| CdiSpec.FoldPreservesSelection | internal/cdi/generator.go:224-242 | For every selection: preserved if and only if it is empty, there is nothing to fold or fold into, or exactly one empty entry is selected and the common edits may as well follow what is selected before it |
| CdiSpec.FoldPreservesAtMostOne | internal/cdi/generator.go:139-149 | With all entries empty, a selection of n gets the common edits n times after the fold; so exactly those of at most one entry are preserved |
| Devices.ClassifiedName | internal/cdi/generator.go:475-511 | A classified device is its class prefix followed by a numeric index |
| Devices.ClassifiedExactly | internal/cdi/generator.go:475-511 | A device has a class if and only if its basename is that class's prefix and a number, and that number is its index |
| Devices.KeyIsNumber | internal/cdi/generator.go:515-521 | Devices are ordered by the number in their name, numerically |
| Numbers.AtoiMeans | internal/cdi/generator.go:475-521 | strconv.Atoi reads exactly the signed digit strings of 64-bit numbers |
| Numbers.ParseUint32Means | internal/cdi/generator.go:423-450 | strconv.ParseUint reads exactly the digit strings of numbers below 2^32 |
| Devices.SortDevicesByIndex | internal/cdi/generator.go:515-521 | A permutation sorted by numeric index that keeps the order of equal keys |
| Devices.StableSortUnique | internal/cdi/generator.go:515-521 | A stable sort has only one outcome, so any algorithm gives this one |
| Devices.ClassifyDevices | internal/cdi/generator.go:336-352 | Each class is the stable sort of the devices of that class; nothing when devices are disabled |
| Devices.GenerateRdsDevices | internal/cdi/generator.go:166-222 | The RDS entries of the stably sorted RDS devices, none if there is no such device, independent of the disabled flag |
| Devices.BuildDeviceEntries | internal/cdi/generator.go:364-416 | The entry loops build the specified list |
| Devices.IndexRsdDevices | internal/cdi/generator.go:440-450 | The map holds the last group with each 32-bit index |
| Devices.GroupAtFinds | internal/cdi/generator.go:440-450 | For distinct indices the map finds exactly the discovered group with that number |
| Devices.EntryNamesUnique | internal/cdi/generator.go:372-413 | All entry names of the NPU spec, all and runtime included, are unique if and only if the discovered devices have distinct basenames per class |
| Devices.RdsNamesUnique | internal/cdi/generator.go:201-222 | The same for the RDS spec |
| Devices.NpuEntryNodes | internal/cdi/generator.go:372-434 | A per-NPU entry gains one more node, at /dev/rsd0 with the group's host path, if and only if the topology names a discovered group |
| Devices.OtherEntryNodes | internal/cdi/generator.go:385-413 | An RSD entry holds its group at /dev/rsd0, an RDS entry its own node, and runtime the same as all |
| Devices.SpecsSplitDevices | internal/cdi/generator.go:180-222 | The entries called all of the NPU and the RDS spec, one each, list every classified device once between them, at its identity path, and share no node |
| Soname.SoLinkCutsAfterSo | internal/discover/soname.go:50-62 | The link name is the name cut after its last dot-separated "so", and empty if there is none |
| LinkHook.LinkRoundTrip | internal/cdi/generator.go:669-688 | Splitting an emitted target::link returns the pair if and only if the target has no "::" and does not end in ':' |
| LinkHook.Container.CreateSymlinkInContainer | cmd/rbln-cdi-hook/create_symlinks.go:117-143 | A matching link is left alone; otherwise parents are made, the old entry removed and the link created, as far as the system lets each step through; an empty target is always refused, after the removal |
| LinkHook.FailedLink | cmd/rbln-cdi-hook/create_symlinks.go:117-143 | A failed link leaves a tree unchanged if and only if no missing parent will be made and no old entry will be removed; otherwise it loses at most that entry and gains at most missing parents |
| LinkHook.CreatedIsCreateLink | cmd/rbln-cdi-hook/create_symlinks.go:117-143 | A link that was made is the one made when nothing goes wrong, and it is made if nothing does |
| LinkHook.DirsFailAtObstacle | cmd/rbln-cdi-hook/create_symlinks.go:125-127 | In a tree of directories MkdirAll refuses only a node in the way that is no directory, with all above it there |
| LinkHook.Container.ExecuteCreateSymlinks | cmd/rbln-cdi-hook/create_symlinks.go:79-115 | Repeats are skipped, the rest applied in order; an error names the first text that is malformed or whose link fails, and the state is that after the texts before it and what the failing one did |
| LinkHook.FailsOnce | cmd/rbln-cdi-hook/create_symlinks.go:94-112 | There is only one first failing text |
| LinkHook.ApplyLinks | cmd/rbln-cdi-hook/create_symlinks.go:94-143 | After success every claimed place holds its last target and files elsewhere are untouched |
| LinkHook.ExecuteTwice | cmd/rbln-cdi-hook/create_symlinks.go:79-115 | Running the hook again on a prepared container changes nothing |
| LinkHook.RunsTwice | cmd/rbln-cdi-hook/create_symlinks.go:79-115 | Whatever the system answers the two times, a second run that succeeds changes nothing |
| Symlinks.Linker.ComputeSymlinks | internal/cdi/generator.go:642-693 | Every wanted specification is emitted once, where it first comes up |
| Symlinks.Linker.LinksExactly | internal/cdi/generator.go:646-690 | Which links a library gets: the SONAME where the file is called otherwise, the unversioned name where it differs, each only if the host has it, in this order, in the library's or the isolation directory |
| Symlinks.Linker.ReadsTheFile | internal/cdi/generator.go:695-704 | The file whose SONAME is read is the one discovery found |
| Symlinks.EmittedDecodes | cmd/rbln-cdi-hook/create_symlinks.go:100-118 | An emitted specification decodes to its target at the intended place below the container root |
| Symlinks.SoLinkReachesLibrary | internal/cdi/generator.go:665-689 | Following the created links from the unversioned name reaches the mounted library file |

## Left out

- CLI flags, environment variables, logging, HTTP handlers and output formatting: no hard property.
- Contents of ELF, TOML, JSON and YAML files, regular expressions and globbing: unseen libraries, passed as functions; ELF note bytes are modelled.
- pflag's comma-separated reading of `--link` values: link specifications are taken as the list the hook receives.
- PID lock exclusion between processes: release unlocks before it removes the file (internal/daemon/daemon.go:409-427), so it does not hold for three processes; the model has one daemon.
- `installer.Setup`: it configures without the readiness guard (internal/installer/setup.go:105-110), so the restart and backup results do not apply to it.
- Health server, onStateChange consumers and the daemon's own process exit after Run returns: the lifecycle ends at Run's return.
- Partial file writes of runtime configs: each write takes effect as a whole or not at all; edits by others and read failures are excluded.
- JSON `null` as a whole daemon.json: a decoder result that is not an object is an error.
- Aliasing of the table criSection returns: the class writes it back by value.
- UID, mount option and permission semantics of CDI: an edit's meaning is the sequence of what is injected.
- ldd output parsing, the ldcache fallback scan, tool and plugin discovery, RDMA provider checks, OS detection and config validation: easy members only.
- LibraryProbe.View.ProbeRblnLibraries: the per-path error map returned beside the snapshot is not modelled; it decides nothing, being logged and handed on.
- Watcher.Watcher.Tick: the Errors map handed on to the callback is not modelled; versions and previous versions are.
- CrioDeployment.Crio.ReadyOnceWritten: that the TOML library reads the generated text as the tree it stands for is a hypothesis, as the library is unseen.
- CrioConfig.DropInDecides: takes what the drop-in contributes as a hypothesis, which `CrioDeployment.Crio.ReadyOnceWritten` discharges from the generated text.
- LinkHook.DirsFailAtObstacle: a symlinked directory on the way counts as an obstacle where the kernel would follow it.
- Symlinks.SoLinkReachesLibrary: assumes that no other specification claims the three places, since a later one would win.
