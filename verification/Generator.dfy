/** The NPU spec generator of internal/cdi/generator.go: mounts with priority,
    hooks, device entries and the fold of the Kubernetes path. */
module Generator {
  import opened Strings
  import opened Paths
  import opened Libraries
  import opened LinkHook
  import opened Symlinks
  import opened CdiSpec
  import opened Devices

  const CDI_VERSION := "0.5.0"
  const HOOK_STAGE := "createContainer"

  /** A host-installed libibverbs provider and the file registering it ("" if none). */
  datatype Provider = Provider(path: string, containerPath: string, driverPath: string)

  datatype Tool = Tool(path: string, containerPath: string)

  datatype Discovery = Discovery(
    libraries: seq<Library>, providers: seq<Provider>, tools: seq<Tool>, devices: seq<HostDevice>)

  /** A wish to have a host file at a container path. */
  datatype Claim = Claim(hostPath: string, containerPath: string, byLibrary: bool)

  function ProviderClaims(providers: seq<Provider>): seq<Claim> {
    if providers == [] then []
    else
      var p := providers[|providers| - 1];
      ProviderClaims(providers[..|providers| - 1])
      + [Claim(p.path, p.containerPath, false)]
      + if p.driverPath != "" then [Claim(p.driverPath, p.driverPath, false)] else []
  }

  /** In order, each provider claims its container path, and its driver file, if it
      has one, the same path as on the host. */
  lemma {:induction false} ProvidersClaim(a: seq<Provider>, p: Provider, b: seq<Provider>)
    ensures ProviderClaims([]) == []
    ensures ProviderClaims([p]) == [Claim(p.path, p.containerPath, false)] +
      if p.driverPath == "" then [] else [Claim(p.driverPath, p.driverPath, false)]
    ensures ProviderClaims(a + b) == ProviderClaims(a) + ProviderClaims(b)
  {
    assert [p][..0] == [] && ProviderClaims([]) == [];
    if b == [] {
      assert a + b == a;
    } else {
      var front, last := b[..|b| - 1], b[|b| - 1];
      assert (a + b)[..|a + b| - 1] == a + front && (a + b)[|a + b| - 1] == last;
      ProvidersClaim(a, p, front);
      var own := [Claim(last.path, last.containerPath, false)];
      var driver := if last.driverPath != "" then [Claim(last.driverPath, last.driverPath, false)] else [];
      assert ProviderClaims(a + b) == ProviderClaims(a + front) + own + driver;
      assert ProviderClaims(b) == ProviderClaims(front) + own + driver;
    }
  }

  /** The claims that come first for their container path, in order. */
  function FirstClaims(claims: seq<Claim>): seq<Claim> {
    if claims == [] then []
    else
      var front, last := claims[..|claims| - 1], claims[|claims| - 1];
      FirstClaims(front) + if last.containerPath in PathsOf(front) then [] else [last]
  }

  function PathsOf(claims: seq<Claim>): set<string> {
    set c | c in claims :: c.containerPath
  }

  lemma FirstClaimsPush(claims: seq<Claim>, c: Claim)
    ensures FirstClaims(claims + [c]) == FirstClaims(claims) + if c.containerPath in PathsOf(claims) then [] else [c]
    ensures PathsOf(claims + [c]) == PathsOf(claims) + {c.containerPath}
  {
    assert (claims + [c])[..|claims|] == claims;
  }

  lemma {:induction false} FirstClaimsCover(claims: seq<Claim>)
    ensures PathsOf(FirstClaims(claims)) == PathsOf(claims)
    ensures forall f :: f in FirstClaims(claims) ==> f in claims
  {
    if claims != [] {
      var front, last := claims[..|claims| - 1], claims[|claims| - 1];
      assert claims == front + [last];
      FirstClaimsCover(front);
      FirstClaimsPush(front, last);
      if last.containerPath !in PathsOf(front) {
        assert PathsOf(FirstClaims(front) + [last]) == PathsOf(FirstClaims(front)) + {last.containerPath};
      }
    }
  }

  /** No container path is mounted twice. */
  lemma {:induction false} FirstClaimsDistinct(claims: seq<Claim>)
    ensures var fs := FirstClaims(claims);
      forall i, j :: 0 <= i < j < |fs| ==> fs[i].containerPath != fs[j].containerPath
  {
    if claims != [] {
      var front, last := claims[..|claims| - 1], claims[|claims| - 1];
      FirstClaimsDistinct(front);
      FirstClaimsCover(front);
      forall f | f in FirstClaims(front)
        ensures f.containerPath in PathsOf(front)
      {
        assert f in front;
      }
    }
  }

  /** No earlier claim has this one's container path. */
  predicate Earliest(claims: seq<Claim>, j: int)
    requires 0 <= j < |claims|
  {
    claims[j].containerPath !in PathsOf(claims[..j])
  }

  lemma EarliestPush(claims: seq<Claim>, c: Claim)
    ensures forall j :: 0 <= j < |claims| ==> (Earliest(claims + [c], j) <==> Earliest(claims, j))
    ensures Earliest(claims + [c], |claims|) <==> c.containerPath !in PathsOf(claims)
  {
    hide PathsOf;
    assert (claims + [c])[..|claims|] == claims;
    forall j | 0 <= j < |claims|
      ensures (claims + [c])[..j] == claims[..j]
    {
    }
  }

  /** A claim is granted exactly when some occurrence of it comes before all other
      claims for its container path. */
  lemma {:induction false} EarliestClaimWins(claims: seq<Claim>, c: Claim)
    ensures c in FirstClaims(claims) <==> exists j :: 0 <= j < |claims| && claims[j] == c && Earliest(claims, j)
  {
    hide PathsOf, Earliest, FirstClaims;
    if claims == [] {
      assert FirstClaims([]) == [] by {
        FirstClaimsNone();
      }
    } else {
      var front, last := claims[..|claims| - 1], claims[|claims| - 1];
      assert claims == front + [last];
      EarliestClaimWins(front, c);
      FirstClaimsPush(front, last);
      EarliestPush(front, last);
    }
  }

  lemma FirstClaimsNone()
    ensures FirstClaims([]) == []
  {
  }

  datatype Generator = Generator(
    linker: Linker, mountContext: Option<string>, hookPath: string, ldconfigPath: string, debug: bool,
    vendor: string, deviceClass: string, devicesDisabled: bool, resolver: Resolver)
  {
    function MountAt(hostPath: string, containerPath: string): Mount {
      Mount(hostPath, containerPath,
            ["ro", "nosuid", "nodev", "bind"] + if mountContext.Some? then [mountContext.value] else [])
    }

    predicate IsSymlinkEntry(lib: Library) {
      lib.realPath != "" && lib.realPath != lib.path
    }

    /** getSymlinkTargetContainerPath. */
    function TargetContainerPath(lib: Library): string {
      if linker.isolationPath != "" then JoinPath(linker.isolationPath, Base(lib.realPath))
      else if IsRoot(linker.driverRoot) then lib.realPath
      else EnsureSlash(TrimPrefix(lib.realPath, linker.driverRoot))
    }

    function LibraryClaim(lib: Library): Claim {
      if IsSymlinkEntry(lib) then Claim(lib.realPath, TargetContainerPath(lib), true)
      else Claim(lib.path, lib.containerPath, true)
    }

    /** A library claims its own container path; one that is a link on the host has
        the real file mounted instead, where discovery would put that. */
    lemma LibraryClaimed(d: Discoverer, lib: Library)
      requires d.driverRoot == linker.driverRoot && d.isolationPath == linker.isolationPath
      ensures LibraryClaim(lib) ==
        if lib.realPath == "" || lib.realPath == lib.path then Claim(lib.path, lib.containerPath, true)
        else Claim(lib.realPath, d.ToContainerPath(lib.realPath), true)
    {
    }

    /** Every mount is a read-only bind mount without set-uid or device files. */
    lemma MountedSafely(hostPath: string, containerPath: string)
      ensures var m := MountAt(hostPath, containerPath);
        && m.hostPath == hostPath && m.containerPath == containerPath
        && m.options[..4] == ["ro", "nosuid", "nodev", "bind"]
        && m.options[4..] == if mountContext.Some? then [mountContext.value] else []
    {
    }

    function LibraryClaims(libs: seq<Library>): (cs: seq<Claim>)
      ensures |cs| == |libs|
    {
      seq(|libs|, i requires 0 <= i < |libs| => LibraryClaim(libs[i]))
    }

    /** Every wish for a deduplicated mount, providers before libraries. */
    function Claims(d: Discovery): seq<Claim> {
      ProviderClaims(d.providers) + LibraryClaims(d.libraries)
    }

    function Mounts(claims: seq<Claim>): (ms: seq<Mount>)
      ensures |ms| == |claims|
    {
      seq(|claims|, i requires 0 <= i < |claims| => MountAt(claims[i].hostPath, claims[i].containerPath))
    }

    function ToolMounts(tools: seq<Tool>): (ms: seq<Mount>)
      ensures |ms| == |tools|
    {
      seq(|tools|, i requires 0 <= i < |tools| => MountAt(tools[i].path, tools[i].containerPath))
    }

    /** Parents of the container paths first mounted by a library. */
    function Folders(claims: seq<Claim>): set<string> {
      set c | c in claims && c.byLibrary :: Dir(c.containerPath)
    }

    /** `--flag value` for each value. */
    static function FlagArgs(name: string, values: seq<string>): seq<string> {
      if values == [] then [] else FlagArgs(name, values[..|values| - 1]) + [name, values[|values| - 1]]
    }

    /** The flag before each value, in order. */
    static lemma {:induction false} FlagArgsMeans(name: string, values: seq<string>, i: nat)
      requires i < |values|
      ensures |FlagArgs(name, values)| == 2 * |values|
      ensures FlagArgs(name, values)[2 * i] == name && FlagArgs(name, values)[2 * i + 1] == values[i]
    {
      var front := values[..|values| - 1];
      if i < |front| {
        FlagArgsMeans(name, front, i);
      } else if |front| > 0 {
        FlagArgsMeans(name, front, 0);
      }
    }

    /** The hook that creates these links before the container starts. */
    function SymlinkHook(links: seq<string>): Hook {
      Hook(HOOK_STAGE, hookPath, ["rbln-cdi-hook", "create-symlinks"] + FlagArgs("--link", links), [])
    }

    /** The hook that adds these folders to the container's ldcache. */
    function LdcacheHook(folders: seq<string>): Hook {
      Hook(HOOK_STAGE, hookPath, ["rbln-cdi-hook", "update-ldcache"] + FlagArgs("--folder", folders),
           ["RBLN_CDI_HOOK_LDCONFIG_PATH=" + ldconfigPath,
            "RBLN_CDI_HOOK_DEBUG=" + if debug then "true" else "false"])
    }

    method CreateSymlinkHook(links: seq<string>) returns (hook: Option<Hook>)
      ensures hook == if links == [] then None else Some(SymlinkHook(links))
    {
      if |links| == 0 {
        return None;
      }
      var args := ["rbln-cdi-hook", "create-symlinks"];
      for i := 0 to |links|
        invariant args == ["rbln-cdi-hook", "create-symlinks"] + FlagArgs("--link", links[..i])
      {
        assert links[..i + 1][..i] == links[..i];
        args := args + ["--link", links[i]];
      }
      assert links[..|links|] == links;
      return Some(Hook(HOOK_STAGE, hookPath, args, []));
    }

    /** Some order in which a set can be walked, each element once. */
    static ghost predicate Walks(walked: seq<string>, paths: set<string>) {
      && (forall p :: p in walked <==> p in paths)
      && (forall i, j :: 0 <= i < j < |walked| ==> walked[i] != walked[j])
    }

    static lemma WalkPush(walked: seq<string>, paths: set<string>, p: string)
      requires Walks(walked, paths) && p !in paths
      ensures Walks(walked + [p], paths + {p})
    {
      forall x ensures x in walked + [p] <==> x in paths + {p} {
        assert x in walked + [p] <==> x in walked || x == p;
      }
      forall i, j | 0 <= i < j < |walked| + 1 ensures (walked + [p])[i] != (walked + [p])[j] {
        assert (walked + [p])[i] == walked[i] && walked[i] in walked;
      }
    }

    static method WalkSet(paths: set<string>) returns (walked: seq<string>)
      ensures Walks(walked, paths)
    {
      walked := [];
      var rest := paths;
      while rest != {}
        invariant rest <= paths
        invariant Walks(walked, paths - rest)
        decreases |rest|
      {
        var p :| p in rest;
        WalkPush(walked, paths - rest, p);
        assert paths - (rest - {p}) == paths - rest + {p};
        walked := walked + [p];
        rest := rest - {p};
      }
      assert paths - rest == paths;
    }

    /** The ldcache hook names the folders sorted and without repeats, whatever
        order the set is walked in. */
    method CreateLdcacheHook(libPaths: set<string>) returns (hook: Option<Hook>, ghost folders: seq<string>)
      ensures hook.None? <==> libPaths == {}
      ensures hook.Some? ==>
        Ascending(folders) && (forall p :: p in folders <==> p in libPaths) && hook.value == LdcacheHook(folders)
    {
      folders := [];
      if |libPaths| == 0 {
        return None, [];
      }
      var walked := WalkSet(libPaths);
      var sorted := SortStrings(walked);
      SortedDistinct(walked, sorted);
      var args := ["rbln-cdi-hook", "update-ldcache"];
      for i := 0 to |sorted|
        invariant args == ["rbln-cdi-hook", "update-ldcache"] + FlagArgs("--folder", sorted[..i])
      {
        assert sorted[..i + 1][..i] == sorted[..i];
        args := args + ["--folder", sorted[i]];
      }
      assert sorted[..|sorted|] == sorted;
      folders := sorted;
      hook := Some(Hook(HOOK_STAGE, hookPath, args,
                        ["RBLN_CDI_HOOK_LDCONFIG_PATH=" + ldconfigPath,
                         "RBLN_CDI_HOOK_DEBUG=" + if debug then "true" else "false"]));
    }

    /** LD_LIBRARY_PATH, only where no hook can maintain the ldcache. */
    method CreateEnvVars(libPaths: set<string>, hasHooks: bool) returns (env: seq<string>)
      ensures hasHooks || libPaths == {} ==> env == []
      ensures !hasHooks && libPaths != {} ==>
        exists paths :: Walks(paths, libPaths) && env == ["LD_LIBRARY_PATH=" + Join(paths, ':')]
    {
      env := [];
      if !hasHooks && |libPaths| > 0 {
        var paths := WalkSet(libPaths);
        env := ["LD_LIBRARY_PATH=" + Join(paths, ':')];
      }
    }

    /** Mounts of the first claims, then every tool; symlinks before the ldcache;
        and, since a mounted library always brings the ldcache hook with it, never
        an environment variable. */
    ghost predicate CommonEdits(d: Discovery, edits: Edits) {
      var first := FirstClaims(Claims(d));
      var links := FirstOccurrences(linker.AllLinks(d.libraries));
      && edits.mounts == Mounts(first) + ToolMounts(d.tools)
      && edits.env == [] && edits.deviceNodes == [] && edits.intelRdt == None && edits.additionalGids == []
      && |edits.hooks| == (if links != [] then 1 else 0) + (if Folders(first) != {} then 1 else 0)
      && (links != [] ==> edits.hooks[0] == SymlinkHook(links))
      && (Folders(first) != {} ==> UpdatesLdcache(edits.hooks[|edits.hooks| - 1], Folders(first)))
    }

    ghost predicate UpdatesLdcache(hook: Hook, wanted: set<string>) {
      exists folders ::
        Ascending(folders) && (forall p :: p in folders <==> p in wanted)
        && hook == LdcacheHook(folders)
    }

    lemma ClaimStep(claims: seq<Claim>, c: Claim)
      ensures Mounts(FirstClaims(claims + [c])) == Mounts(FirstClaims(claims))
        + if c.containerPath in PathsOf(claims) then [] else [MountAt(c.hostPath, c.containerPath)]
      ensures Folders(FirstClaims(claims + [c])) == Folders(FirstClaims(claims))
        + if c.containerPath in PathsOf(claims) || !c.byLibrary then {} else {Dir(c.containerPath)}
      ensures PathsOf(claims + [c]) == PathsOf(claims) + {c.containerPath}
    {
      hide FirstClaims, PathsOf;
      FirstClaimsPush(claims, c);
      var first := FirstClaims(claims);
      FoldersPush(first, c);
      if c.containerPath in PathsOf(claims) {
        assert first + [] == first && Mounts(first) + [] == Mounts(first) && Folders(first) + {} == Folders(first);
      }
    }

    lemma FoldersPush(claims: seq<Claim>, c: Claim)
      ensures Folders(claims + [c]) == Folders(claims) + if c.byLibrary then {Dir(c.containerPath)} else {}
    {
      hide Dir;
      assert forall x :: x in claims + [c] <==> x in claims || x == c;
    }

    /** The mounts made, paths taken and folders noted for a list of claims. */
    ghost predicate Served(claims: seq<Claim>, mounts: seq<Mount>, mounted: set<string>, libPaths: set<string>) {
      mounts == Mounts(FirstClaims(claims)) && mounted == PathsOf(claims) && libPaths == Folders(FirstClaims(claims))
    }

    lemma ServedNone()
      ensures Served([], [], {}, {})
    {
    }

    lemma ServedPush(claims: seq<Claim>, mounts: seq<Mount>, mounted: set<string>, libPaths: set<string>, c: Claim)
      requires Served(claims, mounts, mounted, libPaths)
      ensures c.containerPath in mounted ==> Served(claims + [c], mounts, mounted, libPaths)
      ensures c.containerPath !in mounted ==>
        Served(claims + [c], mounts + [MountAt(c.hostPath, c.containerPath)], mounted + {c.containerPath},
               if c.byLibrary then libPaths + {Dir(c.containerPath)} else libPaths)
    {
      hide Dir, FirstClaims, Mounts, Folders, PathsOf;
      ClaimStep(claims, c);
      if c.containerPath in mounted {
        assert mounted + {c.containerPath} == mounted;
        assert mounts + [] == mounts && libPaths + {} == libPaths;
      }
      assert libPaths + {} == libPaths;
    }

    method MountProviders(providers: seq<Provider>) returns (mounts: seq<Mount>, mounted: set<string>)
      ensures Served(ProviderClaims(providers), mounts, mounted, {})
    {
      hide Served, Dir, MountAt;
      mounts, mounted := [], {};
      ServedNone();
      for i := 0 to |providers|
        invariant Served(ProviderClaims(providers[..i]), mounts, mounted, {})
      {
        assert providers[..i + 1][..i] == providers[..i];
        var p := providers[i];
        ghost var claims := ProviderClaims(providers[..i]);
        ServedPush(claims, mounts, mounted, {}, Claim(p.path, p.containerPath, false));
        if p.containerPath !in mounted {
          mounts := mounts + [MountAt(p.path, p.containerPath)];
          mounted := mounted + {p.containerPath};
        }
        claims := claims + [Claim(p.path, p.containerPath, false)];
        ServedPush(claims, mounts, mounted, {}, Claim(p.driverPath, p.driverPath, false));
        if p.driverPath != "" && p.driverPath !in mounted {
          mounts := mounts + [MountAt(p.driverPath, p.driverPath)];
          mounted := mounted + {p.driverPath};
        }
        assert claims + [] == claims;
      }
      assert providers[..|providers|] == providers;
    }

    method MountLibraries(libs: seq<Library>, ghost earlier: seq<Claim>, before: seq<Mount>, taken: set<string>)
      returns (mounts: seq<Mount>, libPaths: set<string>)
      requires Served(earlier, before, taken, {})
      ensures mounts == Mounts(FirstClaims(earlier + LibraryClaims(libs)))
      ensures libPaths == Folders(FirstClaims(earlier + LibraryClaims(libs)))
    {
      hide Served, Dir, MountAt, LibraryClaim, FirstClaims, Folders, Mounts;
      var mounted := taken;
      mounts, libPaths := before, {};
      assert earlier + LibraryClaims(libs)[..0] == earlier;
      for i := 0 to |libs|
        invariant Served(earlier + LibraryClaims(libs)[..i], mounts, mounted, libPaths)
      {
        var claim := LibraryClaim(libs[i]);
        ghost var claims := earlier + LibraryClaims(libs)[..i];
        assert earlier + LibraryClaims(libs)[..i + 1] == claims + [claim];
        LibraryClaimsAreLibraries(libs[i]);
        ServedPush(claims, mounts, mounted, libPaths, claim);
        if claim.containerPath !in mounted {
          mounts := mounts + [MountAt(claim.hostPath, claim.containerPath)];
          mounted := mounted + {claim.containerPath};
          libPaths := libPaths + {Dir(claim.containerPath)};
        }
      }
      assert LibraryClaims(libs)[..|libs|] == LibraryClaims(libs);
      ServedMeaning(earlier + LibraryClaims(libs), mounts, mounted, libPaths);
    }

    method MountTools(tools: seq<Tool>, before: seq<Mount>) returns (mounts: seq<Mount>)
      ensures mounts == before + ToolMounts(tools)
    {
      hide MountAt;
      mounts := before;
      for i := 0 to |tools|
        invariant mounts == before + ToolMounts(tools)[..i]
      {
        mounts := mounts + [MountAt(tools[i].path, tools[i].containerPath)];
        assert ToolMounts(tools)[..i + 1] == ToolMounts(tools)[..i] + [ToolMounts(tools)[i]];
      }
    }

    method BuildHooks(libs: seq<Library>, libPaths: set<string>) returns (hooks: seq<Hook>)
      ensures var links := FirstOccurrences(linker.AllLinks(libs));
        && |hooks| == (if links != [] then 1 else 0) + (if libPaths != {} then 1 else 0)
        && (links != [] ==> hooks[0] == SymlinkHook(links))
        && (libPaths != {} ==> UpdatesLdcache(hooks[|hooks| - 1], libPaths))
    {
      hide Linker.AllLinks, FirstOccurrences, FlagArgs;
      hooks := [];
      var links := linker.ComputeSymlinks(libs);
      var symlinkHook := CreateSymlinkHook(links);
      if symlinkHook.Some? {
        hooks := hooks + [symlinkHook.value];
      }
      var ldcacheHook, folders := CreateLdcacheHook(libPaths);
      if ldcacheHook.Some? {
        assert UpdatesLdcache(ldcacheHook.value, libPaths);
        hooks := hooks + [ldcacheHook.value];
      }
    }

    method BuildCommonEdits(result: Option<Discovery>) returns (edits: Edits)
      ensures result.None? ==> edits == NO_EDITS
      ensures result.Some? ==> CommonEdits(result.value, edits)
    {
      if result.None? {
        return NO_EDITS;
      }
      hide Served, UpdatesLdcache, LibraryClaims, Linker.AllLinks, FirstOccurrences, FirstClaims, Folders, Mounts;
      var d := result.value;
      var provided, mounted := MountProviders(d.providers);
      var shared, libPaths := MountLibraries(d.libraries, ProviderClaims(d.providers), provided, mounted);
      var mounts := MountTools(d.tools, shared);
      var hooks := BuildHooks(d.libraries, libPaths);
      var env := CreateEnvVars(libPaths, |hooks| > 0);
      edits := Edits(env, [], hooks, mounts, None, []);
    }

    lemma LibraryClaimsAreLibraries(lib: Library)
      ensures LibraryClaim(lib).byLibrary
    {
    }

    lemma ServedMeaning(claims: seq<Claim>, mounts: seq<Mount>, mounted: set<string>, libPaths: set<string>)
      requires Served(claims, mounts, mounted, libPaths)
      ensures mounts == Mounts(FirstClaims(claims)) && libPaths == Folders(FirstClaims(claims))
    {
    }

    /** The NPU spec before folding. */
    function Unfolded(edits: Edits, rbln: seq<HostDevice>, rsd: seq<HostDevice>): Spec {
      Spec(CDI_VERSION, vendor + "/" + deviceClass, edits, DeviceEntries(rbln, rsd, resolver))
    }

    method Generate(result: Option<Discovery>)
      returns (spec: Spec, edits: Edits, rbln: seq<HostDevice>, rsd: seq<HostDevice>)
      ensures result.None? ==> edits == NO_EDITS
      ensures result.Some? ==> CommonEdits(result.value, edits)
      ensures devicesDisabled || result.None? ==> rbln == [] && rsd == []
      ensures !devicesDisabled && result.Some? ==>
        && StableSort(OfClass(result.value.devices, DeviceClass.RBLN), rbln)
        && StableSort(OfClass(result.value.devices, RSD), rsd)
      ensures spec == if devicesDisabled then Folded(Unfolded(edits, rbln, rsd)) else Unfolded(edits, rbln, rsd)
    {
      hide CommonEdits, DeviceEntries, StableSort, OfClass;
      edits := BuildCommonEdits(result);
      rbln, rsd := [], [];
      if result.Some? {
        rbln, rsd := ClassifyDevices(result.value.devices, devicesDisabled);
      }
      var devices := BuildDeviceEntries(rbln, rsd, resolver);
      var document := new SpecDocument(Spec(CDI_VERSION, vendor + "/" + deviceClass, edits, devices));
      if devicesDisabled {
        document.FoldCommonEditsIntoEmptyDevices();
      }
      spec := document.spec;
    }

    /** The head of the NPU spec, and the hooks' stage and program. */
    lemma SpecHeader(edits: Edits, rbln: seq<HostDevice>, rsd: seq<HostDevice>, values: seq<string>)
      ensures var s := Unfolded(edits, rbln, rsd);
        s.version == "0.5.0" && s.kind == vendor + "/" + deviceClass && s.edits == edits
      ensures forall h :: h in {SymlinkHook(values), LdcacheHook(values)} ==>
        h.hookName == "createContainer" && h.path == hookPath && |h.args| == 2 + 2 * |values|
      ensures SymlinkHook(values).args[..2] == ["rbln-cdi-hook", "create-symlinks"]
      ensures LdcacheHook(values).args[..2] == ["rbln-cdi-hook", "update-ldcache"]
    {
      hide DeviceEntries;
      if values != [] {
        FlagArgsMeans("--link", values, 0);
        FlagArgsMeans("--folder", values, 0);
      }
    }

    lemma WithoutDevices(edits: Edits)
      ensures Unfolded(edits, [], []).devices == [Device(ALL, NO_EDITS), Device(LEGACY_RUNTIME, NO_EDITS)]
    {
      assert NpuEntries([], [], resolver) + RsdEntries([]) == [];
      assert Nodes([]) + Nodes([]) == [];
    }

    /** Without devices both entries, `all` and `runtime`, are empty; so the fold
        keeps what every single selection means and leaves no entry empty unless
        there was nothing to inject. */
    lemma KubernetesFold(edits: Edits)
      requires edits.intelRdt == None
      ensures var s := Unfolded(edits, [], []);
        && |s.devices| == |Folded(s).devices| == 2
        && (forall i :: 0 <= i < 2 ==>
              Single(Folded(s), i) == Single(s, i) && Folded(s).devices[i].name == s.devices[i].name)
        && (HasEmptyDevice(Folded(s).devices) <==> IsEmpty(edits))
        && s.devices[0].name == ALL && s.devices[1].name == LEGACY_RUNTIME
    {
      hide Single, Folded;
      var s := Unfolded(edits, [], []);
      WithoutDevices(edits);
      FoldPreservesSingles(s);
      FoldFillsDevices(s);
      assert s.devices[0] in s.devices;
    }

    /** Of the selections of `all` and `runtime` the fold preserves, where there is
        anything to inject, exactly those of at most one entry: n of them inject
        everything n times. */
    lemma KubernetesSelections(edits: Edits, selection: seq<nat>)
      requires edits.intelRdt == None && !IsEmpty(edits) && Selects(Unfolded(edits, [], []).devices, selection)
      ensures var s := Unfolded(edits, [], []);
        && |Folded(s).devices| == |s.devices|
        && Effective(s, selection) == (if selection == [] then NO_EDITS else edits)
        && Effective(Folded(s), selection) == Times(edits, |selection|)
        && (Effective(Folded(s), selection) == Effective(s, selection) <==> |selection| <= 1)
    {
      hide Effective, Folded, Times, Unfolded;
      WithoutDevices(edits);
      NoEditsEmpty();
      UnfoldedEdits(edits);
      FoldPreservesAtMostOne(Unfolded(edits, [], []), selection);
    }

    lemma UnfoldedEdits(edits: Edits)
      ensures Unfolded(edits, [], []).edits == edits
    {
    }
  }

  lemma SortedDistinct(xs: seq<string>, sorted: seq<string>)
    requires multiset(sorted) == multiset(xs) && Sorted(sorted)
    requires forall i, j :: 0 <= i < j < |xs| ==> xs[i] != xs[j]
    ensures Ascending(sorted) && forall x :: x in sorted <==> x in xs
  {
    forall x
      ensures x in sorted <==> x in xs
    {
      assert x in multiset(sorted) <==> x in multiset(xs);
    }
    forall i, j | 0 <= i < j < |sorted|
      ensures sorted[i] != sorted[j]
    {
      if sorted[i] == sorted[j] {
        Twice(sorted, i, j);
        OnceEach(xs, sorted[i]);
      }
    }
  }
}
