/** How the daemon derives its roots in cmd/rbln-ctk-daemon/root.go, and that the
    watcher and the generator therefore look at the same files. */
module DaemonRoots {
  import opened Strings
  import opened Paths
  import opened Libraries

  function JoinSearchPrefix(hostRoot: string, driverRoot: string): string {
    var tail := TrimPrefix(driverRoot, "/");
    if tail == "" then hostRoot
    else if IsRoot(hostRoot) then "/" + tail
    else JoinPath(hostRoot, tail)
  }

  function RerootUnder(prefix: string, path: string): string {
    JoinPath(prefix, TrimPrefix(path, "/"))
  }

  /** One directory the watcher globs. */
  function RefreshDir(hostRoot: string, driverRoot: string, dir: string): string {
    var prefix := JoinSearchPrefix(hostRoot, driverRoot);
    if IsRoot(prefix) then dir else RerootUnder(prefix, dir)
  }

  /** The search root regenerateCDISpec sets; "" leaves it unset. */
  function DaemonSearchRoot(hostRoot: string, driverRoot: string): string {
    if IsRoot(hostRoot) then "" else JoinSearchPrefix(hostRoot, driverRoot)
  }

  lemma JoinWithoutSlash(root: string, path: string)
    requires CleanAbs(root) && CleanAbs(path)
    ensures JoinPath(root, TrimPrefix(path, "/")) == JoinPath(root, path)
  {
    hide Walk, Split;
    SingleSlash(path);
    var tail := path[1..];
    CleanRooted(root);
    assert root + "/" + ("/" + tail) == root + "/" + "/" + tail;
    ComponentsBelow(root, tail);
    SplitConcat(root, tail, '/');
    WalkConcat(true, [], Split(root, '/'), Split(tail, '/'));
    if tail == "" {
      Discoverer.RootIsClean();
      JoinCleanAbs(root, "/");
      CleanRooted(path);
      ComponentsOfAbs([]);
      assert Components(root) + [] == Components(root);
      CleanRooted(JoinPath(root, "/"));
    }
  }

  lemma PrefixText(hostRoot: string, driverRoot: string)
    requires ValidRoot(hostRoot) && ValidRoot(driverRoot)
    ensures JoinSearchPrefix(hostRoot, driverRoot) ==
      if IsRoot(driverRoot) then hostRoot
      else if IsRoot(hostRoot) then driverRoot
      else hostRoot + driverRoot
    ensures ValidRoot(JoinSearchPrefix(hostRoot, driverRoot))
  {
    if !IsRoot(driverRoot) {
      SingleSlash(driverRoot);
      if !IsRoot(hostRoot) {
        JoinWithoutSlash(hostRoot, driverRoot);
        JoinCleanAbs(hostRoot, driverRoot);
      }
    }
  }

  /** Whatever the host and driver roots, the daemon's discoverer has valid,
      paired roots: what KeysAgree and MappingsInvert ask for. */
  lemma DaemonRootsPaired(d: Discoverer, hostRoot: string)
    requires ValidRoot(hostRoot) && ValidRoot(d.driverRoot)
    requires d.searchRoot == DaemonSearchRoot(hostRoot, d.driverRoot)
    ensures d.ValidRoots() && d.RootsPaired()
    ensures d.searchRoot == "" <==> IsRoot(hostRoot)
  {
    hide CleanAbs;
    PrefixText(hostRoot, d.driverRoot);
  }

  /** The watcher globs the very directory the generator searches. */
  lemma WatcherSeesGeneratorView(d: Discoverer, hostRoot: string, dir: string)
    requires ValidRoot(hostRoot) && ValidRoot(d.driverRoot) && CleanAbs(dir)
    requires d.searchRoot == DaemonSearchRoot(hostRoot, d.driverRoot)
    ensures RefreshDir(hostRoot, d.driverRoot, dir) == d.File(dir)
  {
    hide Clean, Components;
    PrefixText(hostRoot, d.driverRoot);
    var prefix := JoinSearchPrefix(hostRoot, d.driverRoot);
    if IsRoot(prefix) {
      if d.SearchRoot() == "/" {
        Discoverer.RootIsClean();
        JoinCleanAbs("/", dir);
      }
      SingleSlash(dir);
    } else {
      JoinWithoutSlash(prefix, dir);
    }
  }
}
