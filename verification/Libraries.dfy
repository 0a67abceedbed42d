/** Path re-rooting and dependency discovery of internal/discover/library.go. */
module Libraries {
  import opened Strings
  import opened Paths
  import opened Reachability
  import opened ElfResolver

  datatype LibraryType = RBLN | Dependency | Plugin

  datatype Library = Library(
    name: string, path: string, containerPath: string, realPath: string, kind: LibraryType)

  /** "" and "/" both mean "no special root". */
  predicate IsRoot(root: string) {
    root == "" || root == "/"
  }

  predicate ValidRoot(root: string) {
    IsRoot(root) || CleanAbs(root)
  }

  function EnsureSlash(p: string): string {
    if HasPrefix(p, "/") then p else "/" + p
  }

  /** Where `p` continues the text of directory `dir` inside a component, that
      component takes in the last one of `dir`. */
  lemma ContinuedText(dir: string, p: string, rest: string)
    requires CleanAbs(dir) && dir != "/" && CleanAbs(p) && p == dir + rest
    ensures Components(dir) != []
    ensures var ds, parts := Components(dir), Split(rest, '/');
      Components(p) == ds[..|ds| - 1] + [Last(ds) + parts[0]] + parts[1..]
  {
    hide Walk, Split, Join;
    CleanRooted(dir);
    CleanRooted(p);
    EmptyAbs();
    var ds, ps, parts := Components(dir), Components(p), Split(rest, '/');
    SplitAbs(ds);
    SplitAbs(ps);
    SplitAppend(dir, rest, '/');
    assert ([""] + ds)[..|ds|] == [""] + ds[..|ds| - 1];
    assert p != "/" && ps != [];
    assert ps == ([""] + ps)[1..];
  }

  /** Cutting a directory off a clean path and re-rooting the rest leads below the
      new root, unless the cut leaves "..": the path continues the directory's text
      with two dots, and goes on with `xs`. */
  lemma ReRooted(root: string, dir: string, p: string) returns (xs: seq<string>)
    requires CleanAbs(root) && CleanAbs(dir) && dir != "/" && root != "/" && CleanAbs(p)
    ensures Components(root) != [] && Components(dir) != []
    ensures
      var r, d := Components(root), Components(dir);
      var moved := Components(JoinPath(root, EnsureSlash(TrimPrefix(p, dir))));
      r <= moved
      || (moved == r[..|r| - 1] + xs && Components(p) == d[..|d| - 1] + [Last(d) + ".."] + xs)
  {
    hide Walk, Split, Join, Push;
    xs := [];
    CleanRooted(root);
    CleanRooted(dir);
    EmptyAbs();
    if HasPrefix(p, dir) {
      var rest := p[|dir|..];
      var r, parts := Components(root), Split(rest, '/');
      CleanRooted(p);
      ContinuedText(dir, p, rest);
      xs := parts[1..];
      assert AllProper(xs) by {
        forall c | c in xs
          ensures Proper(c)
        {
          assert c in Components(p);
        }
      }
      var tail := EnsureSlash(rest)[1..];
      assert EnsureSlash(rest) == "/" + tail;
      ComponentsBelow(root, tail);
      assert root + "/" + EnsureSlash(rest) == root + "/" + "/" + tail;
      CleanRooted(root + "/" + "/" + tail);
      if HasPrefix(rest, "/") {
        SplitHead(rest, '/');
        WalkProper(true, r, xs);
      } else {
        WalkTheRest(r, parts[0], xs);
        assert parts == [parts[0]] + xs;
      }
    } else {
      JoinCleanAbs(root, p);
    }
  }

  /** `glob` stands for filepath.Match, None being a malformed pattern; `lstat`
      and `needed` describe the filesystem the ELF resolver reads. */
  datatype Discoverer = Discoverer(
    driverRoot: string,
    searchRoot: string,
    isolationPath: string,
    searchPaths: seq<string>,
    glibcExclude: seq<string>,
    glob: (string, string) -> Option<bool>,
    lstat: string -> Stat,
    needed: map<string, seq<string>>)
  {
    function SearchRoot(): string {
      if searchRoot != "" then searchRoot else driverRoot
    }

    function ToHostPath(path: string, root: string): string {
      if IsRoot(root) then path
      else
        var stripped := EnsureSlash(TrimPrefix(path, root));
        if !IsRoot(driverRoot) then JoinPath(driverRoot, stripped) else stripped
    }

    function ToContainerPath(hostPath: string): string {
      if isolationPath != "" then JoinPath(isolationPath, Base(hostPath))
      else if IsRoot(driverRoot) then hostPath
      else EnsureSlash(TrimPrefix(hostPath, driverRoot))
    }

    function ToSearchRootPath(driverRootPath: string): string {
      if searchRoot == "" || searchRoot == driverRoot then driverRootPath
      else JoinPath(searchRoot, EnsureSlash(TrimPrefix(driverRootPath, driverRoot)))
    }

    function ToDriverRootPath(path: string): string {
      if IsRoot(SearchRoot()) && IsRoot(driverRoot) then path
      else if searchRoot != "" && searchRoot != driverRoot then
        var relative := EnsureSlash(TrimPrefix(path, SearchRoot()));
        if !IsRoot(driverRoot) then JoinPath(driverRoot, relative) else relative
      else if !IsRoot(driverRoot) then
        if HasPrefix(path, driverRoot) then path else JoinPath(driverRoot, path)
      else path
    }

    /** The file a root-relative path names on the filesystem being searched. */
    function File(rel: string): string {
      JoinPath(SearchRoot(), rel)
    }

    ghost predicate ValidRoots() {
      ValidRoot(driverRoot) && ValidRoot(searchRoot)
    }

    /** A driver root is set only when the search is re-rooted too. */
    predicate RootsPaired() {
      IsRoot(SearchRoot()) ==> IsRoot(driverRoot)
    }

    /** `rel` does not textually repeat the search root. */
    predicate Unprefixed(rel: string) {
      !IsRoot(SearchRoot()) ==> !HasPrefix(rel, SearchRoot())
    }

    predicate Placed(rel: string) {
      CleanAbs(rel) && rel != "/" && Unprefixed(rel)
    }

    lemma FileText(rel: string)
      requires ValidRoots() && CleanAbs(rel) && rel != "/"
      ensures IsRoot(SearchRoot()) ==> File(rel) == rel
      ensures !IsRoot(SearchRoot()) ==> File(rel) == SearchRoot() + rel
    {
      if SearchRoot() != "" {
        RootIsClean();
        JoinCleanAbs(SearchRoot(), rel);
      }
    }

    static lemma RootIsClean()
      ensures CleanAbs("/")
    {
      ComponentsOfAbs([]);
    }

    lemma BelowDriverRoot(rel: string)
      requires ValidRoots() && CleanAbs(rel) && rel != "/"
      ensures !IsRoot(driverRoot) ==> JoinPath(driverRoot, rel) == driverRoot + rel
    {
      if !IsRoot(driverRoot) {
        JoinCleanAbs(driverRoot, rel);
      }
    }

    lemma HostPathText(rel: string)
      requires ValidRoots() && CleanAbs(rel) && rel != "/"
      ensures ToHostPath(File(rel), SearchRoot())
        == if IsRoot(SearchRoot()) || IsRoot(driverRoot) then rel else driverRoot + rel
    {
      hide Clean;
      FileText(rel);
      BelowDriverRoot(rel);
      assert (SearchRoot() + rel)[|SearchRoot()|..] == rel;
    }

    lemma DriverPathText(rel: string)
      requires ValidRoots() && CleanAbs(rel) && rel != "/"
      ensures Unprefixed(rel) ==>
        ToDriverRootPath(rel) == if IsRoot(driverRoot) then rel else driverRoot + rel
      ensures !Unprefixed(rel) ==>
        |ToDriverRootPath(rel)| < |if IsRoot(driverRoot) then rel else driverRoot + rel|
    {
      hide Clean;
      SingleSlash(rel);
      BelowDriverRoot(rel);
      var s := SearchRoot();
      if searchRoot != "" && searchRoot != driverRoot && !Unprefixed(rel) {
        var relative := EnsureSlash(rel[|s|..]);
        assert |relative| < |rel|;
        if !IsRoot(driverRoot) {
          assert relative == "/" + relative[1..];
          JoinNoLonger(driverRoot, relative[1..]);
        }
      }
    }

    /** The key a glob match is remembered under equals the key the resolver's
        answer is looked up by exactly when the roots are paired and the path
        does not repeat the search root; so de-duplication across the two works
        on exactly those files. */
    lemma KeysAgree(rel: string)
      requires ValidRoots() && CleanAbs(rel) && rel != "/"
      ensures ToHostPath(File(rel), SearchRoot()) == ToDriverRootPath(rel)
        <==> RootsPaired() && Unprefixed(rel)
    {
      hide ToHostPath, ToDriverRootPath, File;
      HostPathText(rel);
      DriverPathText(rel);
    }

    /** Re-rooting keeps the file name. */
    lemma HostBase(rel: string)
      requires ValidRoots() && CleanAbs(rel) && rel != "/"
      ensures Base(ToHostPath(File(rel), SearchRoot())) == Base(rel)
    {
      hide ToHostPath, Base;
      HostPathText(rel);
      if !IsRoot(driverRoot) {
        BelowDriverRoot(rel);
        BaseOfJoin(driverRoot, rel);
      }
    }

    /** With paired roots the mapping leads back to the very file that was read,
        outside isolation mode the container sees the root-relative path, and in it
        the same file name below the isolation directory. */
    lemma MappingsInvert(rel: string)
      requires ValidRoots() && RootsPaired() && CleanAbs(rel) && rel != "/"
      ensures var host := ToHostPath(File(rel), SearchRoot());
        && ToSearchRootPath(host) == File(rel)
        && (isolationPath == "" ==> ToContainerPath(host) == rel)
        && (isolationPath != "" ==> ToContainerPath(host) == JoinPath(isolationPath, Base(rel)))
    {
      hide ToHostPath, JoinPath, CleanAbs, Base;
      HostBase(rel);
      HostPathText(rel);
      SingleSlash(rel);
      FileText(rel);
      assert (driverRoot + rel)[|driverRoot|..] == rel;
      assert rel[0..] == rel;
    }

    /** The ELF resolver DiscoverDependencies builds when none is injected. */
    function Elf(): Resolver {
      Resolver(SearchRoot(), searchPaths, lstat, needed)
    }

    function IsGlibc(name: string): bool {
      exists pattern :: pattern in glibcExclude && glob(pattern, name) == Some(true)
    }

    method MatchesGlibc(name: string) returns (excluded: bool)
      ensures excluded == IsGlibc(name)
    {
      for i := 0 to |glibcExclude|
        invariant forall j :: 0 <= j < i ==> glob(glibcExclude[j], name) != Some(true)
      {
        if glob(glibcExclude[i], name) == Some(true) {
          return true;
        }
      }
      return false;
    }

    function DependencyAt(resolved: string): Library {
      var hostPath := ToDriverRootPath(resolved);
      Library(Base(resolved), hostPath, ToContainerPath(hostPath), "", Dependency)
    }

    /** What is recorded of a dependency found at `rel` below the root. */
    lemma DependencyRecord(rel: string)
      requires ValidRoots() && RootsPaired() && Placed(rel)
      ensures var dep := DependencyAt(rel);
        && dep.name == Base(rel) && dep.kind == Dependency && dep.realPath == ""
        && dep.path == ToHostPath(File(rel), SearchRoot())
        && dep.containerPath == if isolationPath == "" then rel else JoinPath(isolationPath, Base(rel))
    {
      hide ToHostPath, ToContainerPath, ToDriverRootPath, Base, JoinPath, File;
      KeysAgree(rel);
      MappingsInvert(rel);
    }

    /** The node a library's own search starts from. */
    function Start(lib: Library): string {
      ToSearchRootPath(lib.path)
    }

    ghost function InputPaths(libs: seq<Library>): set<string> {
      (set lib | lib in libs :: lib.path) + (set lib | lib in libs && lib.realPath != "" :: lib.realPath)
    }

    ghost function Paths(libs: seq<Library>): set<string> {
      set lib | lib in libs :: lib.path
    }

    /** The search from some input meets this library. */
    ghost predicate Met(libs: seq<Library>, resolved: string) {
      exists lib :: lib in libs && Elf().ReachableLibrary(Start(lib), resolved)
    }

    /** A host path given up because a library met there is part of glibc. */
    ghost predicate GlibcAt(libs: seq<Library>, hostPath: string) {
      exists d :: Met(libs, d) && IsGlibc(Base(d)) && ToDriverRootPath(d) == hostPath
    }

    ghost predicate Settled(libs: seq<Library>, deps: seq<Library>, resolved: string) {
      var hostPath := ToDriverRootPath(resolved);
      hostPath in InputPaths(libs) || hostPath in Paths(deps) || GlibcAt(libs, hostPath)
    }

    /** Everything a search delivered from this input has been dealt with. */
    ghost predicate Covered(libs: seq<Library>, deps: seq<Library>, lib: Library) {
      forall x :: Reachable(Elf().Graph(), Start(lib), x) && x != Start(lib) ==>
        exists d :: Elf().Full(d) == x && Elf().ReachableLibrary(Start(lib), d) && Settled(libs, deps, d)
    }

    ghost predicate GoodDependency(libs: seq<Library>, dep: Library) {
      && dep.path !in InputPaths(libs)
      && !IsGlibc(dep.name)
      && exists d :: Met(libs, d) && dep == DependencyAt(d)
    }

    ghost predicate DistinctPaths(deps: seq<Library>) {
      forall i, j :: 0 <= i < j < |deps| ==> deps[i].path != deps[j].path
    }

    /** The result DiscoverDependencies promises for `libs`. */
    ghost predicate DependencyResult(libs: seq<Library>, deps: seq<Library>) {
      && DistinctPaths(deps)
      && (forall dep :: dep in deps ==> GoodDependency(libs, dep))
      && (forall lib :: lib in libs ==> Covered(libs, deps, lib))
    }

    /** `seen` holds the inputs, the results so far, and paths given up to glibc. */
    ghost predicate Progress(libs: seq<Library>, deps: seq<Library>, seen: set<string>) {
      && DistinctPaths(deps)
      && (forall dep :: dep in deps ==> GoodDependency(libs, dep))
      && InputPaths(libs) <= seen && Paths(deps) <= seen
      && forall h :: h in seen ==> h in InputPaths(libs) || h in Paths(deps) || GlibcAt(libs, h)
    }

    lemma RecordDependency(libs: seq<Library>, deps: seq<Library>, seen: set<string>, d: string)
      requires Progress(libs, deps, seen) && Met(libs, d)
      requires ToDriverRootPath(d) !in seen && !IsGlibc(Base(d))
      ensures Progress(libs, deps + [DependencyAt(d)], seen + {ToDriverRootPath(d)})
    {
      hide ToDriverRootPath, ToContainerPath, Base, IsGlibc, Met, GlibcAt;
      var dep := DependencyAt(d);
      assert GoodDependency(libs, dep);
      assert Paths(deps + [dep]) == Paths(deps) + {dep.path};
      forall j | 0 <= j < |deps|
        ensures deps[j].path != dep.path
      {
        assert deps[j] in deps && deps[j].path in Paths(deps);
      }
    }

    lemma RecordGlibc(libs: seq<Library>, deps: seq<Library>, seen: set<string>, d: string)
      requires Progress(libs, deps, seen) && Met(libs, d) && IsGlibc(Base(d))
      ensures Progress(libs, deps, seen + {ToDriverRootPath(d)})
    {
      assert GlibcAt(libs, ToDriverRootPath(d));
    }

    method DiscoverDependencies(libs: seq<Library>) returns (dependencies: seq<Library>)
      ensures DependencyResult(libs, dependencies)
    {
      hide ToDriverRootPath, ToContainerPath, Base, IsGlibc, Progress, Met, Covered, Settled, Start, Elf;
      dependencies := [];
      var seen: set<string> := {};
      for i := 0 to |libs|
        invariant seen == InputPaths(libs[..i])
      {
        InputPathsPush(libs, i);
        seen := seen + {libs[i].path};
        if libs[i].realPath != "" {
          seen := seen + {libs[i].realPath};
        }
      }
      assert libs[..|libs|] == libs;
      ProgressStart(libs);
      for i := 0 to |libs|
        invariant Progress(libs, dependencies, seen)
        invariant forall j :: 0 <= j < i ==> Covered(libs, dependencies, libs[j])
      {
        var deps := Elf().Run(Start(libs[i]));
        ghost var before := dependencies;
        for k := 0 to |deps|
          invariant Progress(libs, dependencies, seen)
          invariant before <= dependencies
          invariant forall j :: 0 <= j < k ==> ToDriverRootPath(deps[j]) in seen
        {
          var hostPath := ToDriverRootPath(deps[k]);
          if hostPath in seen {
            continue;
          }
          MetByRun(libs, i, deps[k]);
          var excluded := MatchesGlibc(Base(deps[k]));
          if excluded {
            RecordGlibc(libs, dependencies, seen, deps[k]);
            seen := seen + {hostPath};
            continue;
          }
          RecordDependency(libs, dependencies, seen, deps[k]);
          seen := seen + {hostPath};
          dependencies := dependencies + [DependencyAt(deps[k])];
        }
        CoveredByRun(libs, dependencies, seen, libs[i], deps);
        forall j | 0 <= j < i
          ensures Covered(libs, dependencies, libs[j])
        {
          CoveredGrows(libs, before, dependencies, libs[j]);
        }
      }
      ProgressEnd(libs, dependencies, seen);
    }

    lemma MetByRun(libs: seq<Library>, i: nat, d: string)
      requires i < |libs| && Elf().ReachableLibrary(Start(libs[i]), d)
      ensures Met(libs, d)
    {
      assert libs[i] in libs;
    }

    lemma ProgressStart(libs: seq<Library>)
      ensures Progress(libs, [], InputPaths(libs))
    {
    }

    lemma ProgressEnd(libs: seq<Library>, deps: seq<Library>, seen: set<string>)
      requires Progress(libs, deps, seen)
      ensures DistinctPaths(deps) && forall dep :: dep in deps ==> GoodDependency(libs, dep)
    {
    }

    lemma InputPathsPush(libs: seq<Library>, i: nat)
      requires i < |libs|
      ensures InputPaths(libs[..i + 1]) == InputPaths(libs[..i]) + {libs[i].path}
        + if libs[i].realPath != "" then {libs[i].realPath} else {}
    {
      assert libs[..i + 1] == libs[..i] + [libs[i]];
    }

    lemma CoveredByRun(libs: seq<Library>, deps: seq<Library>, seen: set<string>, lib: Library, run: seq<string>)
      requires lib in libs && Progress(libs, deps, seen)
      requires forall d :: d in run ==> Elf().ReachableLibrary(Start(lib), d)
      requires Delivers(Elf().Graph(), Start(lib), Elf().Fulls(run))
      requires forall d :: d in run ==> ToDriverRootPath(d) in seen
      ensures Covered(libs, deps, lib)
    {
      var fulls := Elf().Fulls(run);
      forall x | Reachable(Elf().Graph(), Start(lib), x) && x != Start(lib)
        ensures exists d :: Elf().Full(d) == x && Elf().ReachableLibrary(Start(lib), d) && Settled(libs, deps, d)
      {
        assert x in [Start(lib)] + fulls;
        var i :| 0 <= i < |fulls| && fulls[i] == x;
        var d := run[i];
        assert Elf().Full(d) == x && d in run;
        assert Settled(libs, deps, d);
      }
    }

    lemma CoveredGrows(libs: seq<Library>, deps: seq<Library>, deps': seq<Library>, lib: Library)
      requires deps <= deps' && Covered(libs, deps, lib)
      ensures Covered(libs, deps', lib)
    {
      assert forall dep :: dep in deps ==> dep in deps';
      assert Paths(deps) <= Paths(deps');
      assert forall d :: Settled(libs, deps, d) ==> Settled(libs, deps', d);
    }

    /** A tidy filesystem on which no link leads to a directory that holds the
        search root. */
    ghost predicate TidyFilesystem() {
      && ValidRoots() && RootsPaired() && Elf().Tidy()
      && forall p :: lstat(p).Symlink? && lstat(p).realPath.Some? ==>
           !(Components(lstat(p).realPath.value) <= Components(SearchRoot()))
    }

    /** A resolved library, read back from its place and ending in a file name. */
    ghost predicate Resolved(d: string) {
      && Elf().ReadBack(File(d)) == d
      && exists parts :: EndsInName(parts) && d == Abs(parts)
    }

    lemma ProbedEndsInName(searchPath: string, name: string) returns (parts: seq<string>)
      requires TidyFilesystem() && searchPath in searchPaths && JoinPath(searchPath, name) != "/"
      requires Elf().Probe(searchPath, name).Some?
      ensures EndsInName(parts) && Elf().Probe(searchPath, name).value == Abs(parts)
    {
      hide Components, Join, Clean;
      var stat := lstat(JoinPath3(SearchRoot(), searchPath, name));
      if stat.Symlink? {
        if SearchRoot() == "" {
          Resolver.NoRelFromNowhere(stat.realPath.value);
        }
        parts := RelEndsInName(SearchRoot(), stat.realPath.value);
      } else {
        var leaf := JoinPath(searchPath, name);
        Resolver.LeafIsClean(searchPath, name);
        CleanRooted(leaf);
        parts := Components(leaf);
        EmptyAbs();
        assert Last(parts) in parts;
      }
    }

    lemma MetIsResolved(libs: seq<Library>, d: string)
      requires TidyFilesystem() && Met(libs, d)
      ensures Resolved(d)
    {
      hide Components, Resolver.Probe, Resolver.ReadBack, CleanAbs, Join;
      var lib :| lib in libs && Elf().ReachableLibrary(Start(lib), d);
      var x, name :| Reachable(Elf().Graph(), Start(lib), x) && Elf().Needs(x, name, d);
      Elf().NeededReadBack(x, name, d);
      var p := Elf().FoundByProbe(searchPaths, name);
      var parts := ProbedEndsInName(p, name);
    }

    lemma HostPathOf(d: string)
      requires RootsPaired() && Rooted(d) && Unprefixed(d)
      ensures ToDriverRootPath(d) == if IsRoot(driverRoot) then d else JoinPath(driverRoot, d)
    {
    }

    /** The host path keeps the file name, also where the library lies outside the
        search root. */
    lemma HostPathKeepsName(d: string)
      requires ValidRoots() && RootsPaired() && Resolved(d) && Unprefixed(d)
      ensures Base(ToDriverRootPath(d)) == Base(d)
    {
      hide Base, ToDriverRootPath, JoinPath, Join, Components;
      var parts :| EndsInName(parts) && d == Abs(parts);
      HostPathOf(d);
      BaseOfAbs(parts);
      if !IsRoot(driverRoot) {
        BaseBelow(driverRoot, parts);
      }
    }

    /** An input's own place is read back as the path it was found under. */
    lemma PlacedReadBack(rel: string)
      requires ValidRoots() && Placed(rel)
      ensures Elf().ReadBack(File(rel)) == rel
    {
      hide Components, Join;
      if SearchRoot() != "" {
        RootIsClean();
        RelOfJoin(SearchRoot(), rel);
        SingleSlash(rel);
      }
    }

    /** Inputs recorded the way discovery records them, and no library met repeats
        the search root in its path. */
    ghost predicate WellPlaced(libs: seq<Library>) {
      && TidyFilesystem()
      && (forall d :: Met(libs, d) ==> Unprefixed(d))
      && (forall lib :: lib in libs ==>
            exists rel :: Placed(rel) && lib.path == ToHostPath(File(rel), SearchRoot()))
    }

    /** Whatever any node met by a search needs, glibc nodes included, is an
        input, a result, or itself part of glibc; links may lead anywhere. */
    lemma NeedsOfReachable(libs: seq<Library>, deps: seq<Library>, lib: Library, x: string, name: string, d: string)
      requires WellPlaced(libs) && DependencyResult(libs, deps)
      requires lib in libs && Reachable(Elf().Graph(), Start(lib), x) && Elf().Needs(x, name, d)
      ensures ToDriverRootPath(d) in InputPaths(libs) + Paths(deps) || IsGlibc(Base(d))
    {
      hide ToHostPath, ToDriverRootPath, ToSearchRootPath, ToContainerPath, JoinPath, IsGlibc, Base, Reachable;
      hide DistinctPaths, GoodDependency, TidyFilesystem, Components, Resolver.ReadBack;
      var start := Start(lib);
      assert Elf().ReachableLibrary(start, d) && Met(libs, d);
      assert Elf().Full(d) == File(d);
      MetIsResolved(libs, d);
      if File(d) == start {
        var rel :| Placed(rel) && lib.path == ToHostPath(File(rel), SearchRoot());
        RootsOfTidy();
        MappingsInvert(rel);
        PlacedReadBack(rel);
        KeysAgree(d);
        assert lib.path in InputPaths(libs);
      } else {
        ReachableStep(Elf().Graph(), start, x, File(d));
        var d' :| Elf().Full(d') == File(d) && Elf().ReachableLibrary(start, d') && Settled(libs, deps, d');
        assert Met(libs, d') && Elf().Full(d') == File(d');
        MetIsResolved(libs, d');
        if GlibcAt(libs, ToDriverRootPath(d)) {
          var g :| Met(libs, g) && IsGlibc(Base(g)) && ToDriverRootPath(g) == ToDriverRootPath(d);
          MetIsResolved(libs, g);
          RootsOfTidy();
          HostPathKeepsName(g);
          HostPathKeepsName(d);
        }
      }
    }

    lemma RootsOfTidy()
      requires TidyFilesystem()
      ensures ValidRoots() && RootsPaired()
    {
    }

    /** A result does not lead out of the search root, or the two roots are not
        told apart. */
    predicate Anchored(d: string) {
      CleanAbs(d) || IsRoot(driverRoot) || searchRoot == "" || searchRoot == driverRoot
    }

    lemma NotADot(parts: seq<string>)
      requires EndsInName(parts)
      ensures Abs(parts) != "/." && Abs(parts) != "/" && !HasPrefix(Abs(parts)[1..], "/")
    {
      SplitOfJoin(parts, '/');
      SplitAtom(".", '/');
      SplitNothing('/');
      assert Abs(parts)[1..] == Join(parts, '/');
      assert parts[0] in parts && parts[0][0] in parts[0];
    }

    /** Without a search root a library is read where it was resolved. */
    lemma ResolvedAtRoot(d: string)
      requires Resolved(d) && IsRoot(SearchRoot())
      ensures File(d) == d
    {
      hide Components, Join, Base, Clean;
      if SearchRoot() == "/" {
        RootIsClean();
        var parts :| EndsInName(parts) && d == Abs(parts);
        NotADot(parts);
        CleanRooted("/" + "/" + d);
        JoinCleanAbs("/", File(d));
        if File(d) == "/" {
          RelInside("/", "/");
        } else {
          RelOfJoin("/", File(d));
          SingleSlash(File(d));
        }
      }
    }

    lemma AnchoredStart(d: string)
      requires ValidRoots() && RootsPaired() && Resolved(d) && Unprefixed(d) && Anchored(d)
      ensures Start(DependencyAt(d)) == File(d)
    {
      hide Components, Join, Base, Clean, Resolver.ReadBack;
      var parts :| EndsInName(parts) && d == Abs(parts);
      NotADot(parts);
      HostPathOf(d);
      if IsRoot(SearchRoot()) {
        ResolvedAtRoot(d);
      }
      if CleanAbs(d) && !IsRoot(driverRoot) {
        hide ToHostPath, ToSearchRootPath, ToDriverRootPath, ToContainerPath, File;
        KeysAgree(d);
        MappingsInvert(d);
      } else {
        hide ToContainerPath, JoinPath;
      }
    }

    lemma UnanchoredStart(d: string)
      requires ValidRoots() && RootsPaired() && Resolved(d) && Unprefixed(d) && !Anchored(d)
      ensures Start(DependencyAt(d)) != File(d)
    {
      hide Components, Join, Clean, Base, Walk, ToContainerPath;
      var parts :| EndsInName(parts) && d == Abs(parts);
      NotADot(parts);
      HostPathOf(d);
      var h := JoinPath(driverRoot, d);
      CleanRooted(driverRoot + "/" + d);
      CleanRooted(searchRoot + "/" + d);
      if Components(searchRoot) <= Components(File(d)) {
        RelInside(searchRoot, File(d));
      } else if Start(DependencyAt(d)) == File(d) {
        var xs := ReRooted(searchRoot, driverRoot, h);
        RelBeside(searchRoot, File(d), xs);
        JoinBeside(driverRoot, xs);
      }
    }

    /** A result's own dependencies are searched from the very file that was found
        exactly when its path does not climb out of the search root, or there are
        no two roots to tell apart. */
    lemma StartIsWhereItWasFound(d: string)
      requires ValidRoots() && RootsPaired() && Resolved(d) && Unprefixed(d)
      ensures Start(DependencyAt(d)) == File(d) <==> Anchored(d)
    {
      hide Resolved, Anchored, Start, File;
      if Anchored(d) {
        AnchoredStart(d);
      } else {
        UnanchoredStart(d);
      }
    }

    /** Inputs and results together are closed under DT_NEEDED, up to glibc. */
    lemma ClosedUnderNeeds(libs: seq<Library>, deps: seq<Library>, member: Library, name: string, d: string)
      requires WellPlaced(libs) && DependencyResult(libs, deps)
      requires member in libs
        || (member in deps && forall m :: Met(libs, m) && member == DependencyAt(m) ==> Anchored(m))
      requires Elf().Needs(Start(member), name, d)
      ensures ToDriverRootPath(d) in InputPaths(libs) + Paths(deps) || IsGlibc(Base(d))
    {
      hide ToHostPath, ToDriverRootPath, ToSearchRootPath, ToContainerPath, JoinPath, IsGlibc, Base;
      hide TidyFilesystem, Components, Resolver.ReadBack, Anchored;
      if member in libs {
        assert Within(Elf().Graph(), Start(member), Start(member), 0);
        NeedsOfReachable(libs, deps, member, Start(member), name, d);
      } else {
        assert GoodDependency(libs, member);
        var d0 :| Met(libs, d0) && member == DependencyAt(d0);
        var lib :| lib in libs && Elf().ReachableLibrary(Start(lib), d0);
        MetIsResolved(libs, d0);
        RootsOfTidy();
        StartIsWhereItWasFound(d0);
        assert Start(member) == File(d0) == Elf().Full(d0);
        Elf().ReachableLibraryIsReachable(Start(lib), d0);
        NeedsOfReachable(libs, deps, lib, Start(member), name, d);
      }
    }
  }

  /** A host with the driver at /d, seen below /h, where the library /d/l/a needs
      "x" and /l/x is a link to /o/x, outside the driver root. */
  function LinkedOut(): Discoverer {
    var link := JoinPath3("/h", "/l", "x");
    Discoverer("/d", "/h", "", ["/l"], [], (pattern, name) => Some(false),
               p => if p == link then Symlink(Some("/o/x")) else Absent,
               map[JoinPath("/h", "/l/a") := ["x"]])
  }

  lemma CleanExamples()
    ensures Components("/d") == ["d"] && Components("/h") == ["h"] && Components("/l") == ["l"]
    ensures Components("/o/x") == ["o", "x"]
    ensures CleanAbs("/d") && CleanAbs("/h") && CleanAbs("/l") && CleanAbs("/o/x") && CleanAbs("/l/a")
  {
    hide Walk, Split, Clean;
    assert Abs(["d"]) == "/d" && Abs(["h"]) == "/h" && Abs(["l"]) == "/l";
    assert ["o", "x"][1..] == ["x"] && Abs(["o", "x"]) == "/o/x";
    assert ["l", "a"][1..] == ["a"] && Abs(["l", "a"]) == "/l/a";
    ComponentsOfAbs(["d"]);
    ComponentsOfAbs(["h"]);
    ComponentsOfAbs(["l"]);
    ComponentsOfAbs(["o", "x"]);
    ComponentsOfAbs(["l", "a"]);
  }

  lemma LeafIsNotRoot()
    ensures JoinPath("/l", "x") != "/"
  {
    hide Walk, Split, Clean;
    CleanExamples();
    ComponentsOfLeaf("/l", "x");
    assert ["l"] + ["x"] == ["l", "x"] && ["l", "x"][1..] == ["x"];
  }

  lemma LinkedOutIsTidy()
    ensures LinkedOut().TidyFilesystem()
  {
    hide Walk, Split, Clean, JoinPath, JoinPath3, Components;
    CleanExamples();
    LeafIsNotRoot();
  }

  /** The link is resolved to a path that climbs out of the driver root. */
  lemma LinkResolves() returns (d: string)
    ensures LinkedOut().Elf().Resolve("x") == d && d != "" && !HasPrefix(d, "/h")
    ensures JoinPath("/h", d) == "/o/x" && !CleanAbs(d)
  {
    hide Walk, Split, Clean, JoinPath, JoinPath3, Components, CleanAbs;
    CleanExamples();
    assert "h"[0] != "o"[0] && ["h"][0] != ["o", "x"][0];
    RelBeside("/h", "/o/x", ["o", "x"]);
    RelRoundTrip("/h", "/o/x");
    var rel := Join([".."] + ["o", "x"], '/');
    d := "/" + rel;
    assert rel[0] == '.' by {
      assert ([".."] + ["o", "x"])[0] == "..";
    }
    assert d[1] == '.';
    var elf := LinkedOut().Elf();
    assert elf.Probe("/l", "x") == Some(d);
    assert elf.ResolveFrom(["/l"], "x") == d;
    if CleanAbs(d) {
      JoinCleanAbs("/h", d);
    }
  }

  /** So a result can be searched from another file than the one that was found,
      with everything recorded as discovery records it. */
  lemma ResultSearchedElsewhere() returns (lib: Library, d: string)
    ensures LinkedOut().WellPlaced([lib]) && LinkedOut().Met([lib], d) && !LinkedOut().Anchored(d)
    ensures LinkedOut().Start(LinkedOut().DependencyAt(d)) != LinkedOut().File(d)
  {
    hide Walk, Split, Clean, JoinPath, JoinPath3, Components, CleanAbs, Discoverer.TidyFilesystem, Discoverer.Resolved;
    hide Resolver.ResolveFrom, Discoverer.ToHostPath, Discoverer.ToContainerPath, Discoverer.ToDriverRootPath;
    var w := LinkedOut();
    LinkedOutIsTidy();
    w.RootsOfTidy();
    CleanExamples();
    d := LinkResolves();
    var rel := "/l/a";
    assert rel[1] == 'l' && w.Placed(rel);
    lib := Library("a", w.ToHostPath(w.File(rel), w.SearchRoot()), "", "", RBLN);
    w.MappingsInvert(rel);
    var start := w.Start(lib);
    assert start == JoinPath("/h", rel) && "x" in w.needed[start];
    assert w.Elf().Needs(start, "x", d);
    assert Within(w.Elf().Graph(), start, start, 0);
    assert w.Elf().ReachableLibrary(start, d) && lib in [lib];
    OnlyOneMet(lib, d);
    w.MetIsResolved([lib], d);
    w.UnanchoredStart(d);
  }

  lemma OnlyOneMet(lib: Library, d: string)
    requires LinkedOut().Elf().Resolve("x") == d
    ensures forall e :: LinkedOut().Met([lib], e) ==> e == d
  {
    hide JoinPath, JoinPath3, Resolver.Resolve, Reachable;
  }
}
