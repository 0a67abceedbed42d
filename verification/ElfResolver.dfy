/** The DT_NEEDED dependency search of internal/discover/elf.go. */
module ElfResolver {
  import opened Strings
  import opened Paths
  import opened Reachability

  /** What Lstat, and EvalSymlinks for a link, say about a path. `realPath` is None
      when the link cannot be evaluated. */
  datatype Stat = Absent | Plain | Symlink(realPath: Option<string>)

  /** `needed` holds the DT_NEEDED list of every readable ELF file; a path outside
      the map is one `readNeeded` fails on. */
  datatype Resolver = Resolver(
    driverRoot: string,
    searchPaths: seq<string>,
    lstat: string -> Stat,
    needed: map<string, seq<string>>)
  {
    /** One round of the search loop: the resolved path, or None to go on. */
    function Probe(searchPath: string, name: string): Option<string> {
      match lstat(JoinPath3(driverRoot, searchPath, name))
      case Absent => None
      case Plain => Some(JoinPath(searchPath, name))
      case Symlink(None) => None
      case Symlink(Some(realPath)) =>
        match Rel(driverRoot, realPath)
        case None => None
        case Some(rel) => Some("/" + rel)
    }

    function Resolve(name: string): string {
      ResolveFrom(searchPaths, name)
    }

    function ResolveFrom(paths: seq<string>, name: string): string {
      if paths == [] then ""
      else
        match Probe(paths[0], name)
        case Some(resolved) => resolved
        case None => ResolveFrom(paths[1..], name)
    }

    /** The first search path that has the name wins; "" means none has it. */
    method ResolveLibrary(name: string) returns (resolved: string)
      ensures resolved == Resolve(name)
      ensures (resolved == "" && forall p :: p in searchPaths ==> Probe(p, name).None?)
           || (exists i :: 0 <= i < |searchPaths| && Probe(searchPaths[i], name) == Some(resolved)
                && forall j :: 0 <= j < i ==> Probe(searchPaths[j], name).None?)
    {
      for i := 0 to |searchPaths|
        invariant forall j :: 0 <= j < i ==> Probe(searchPaths[j], name).None?
        invariant Resolve(name) == ResolveFrom(searchPaths[i..], name)
      {
        var hit := Probe(searchPaths[i], name);
        if hit.Some? {
          return hit.value;
        }
        assert searchPaths[i..][1..] == searchPaths[i + 1..];
      }
      return "";
    }

    /** Nothing of that name can be used in this directory: it is absent, or a link
        that cannot be evaluated or related to the root. */
    predicate Missing(searchPath: string, name: string) {
      match lstat(JoinPath3(driverRoot, searchPath, name))
      case Absent => true
      case Plain => false
      case Symlink(None) => true
      case Symlink(Some(realPath)) => Rel(driverRoot, realPath).None?
    }

    /** The file that is there instead: the candidate, or what it links to. */
    function FileThere(searchPath: string, name: string): string {
      match lstat(JoinPath3(driverRoot, searchPath, name))
      case Symlink(Some(realPath)) => realPath
      case _ => JoinPath3(driverRoot, searchPath, name)
    }

    /** The first of these search paths on which the name is not missing. */
    ghost predicate FirstHit(paths: seq<string>, name: string, i: int) {
      0 <= i < |paths| && !Missing(paths[i], name) && forall j :: 0 <= j < i ==> Missing(paths[j], name)
    }

    /** A plain file resolves to its path on the search path, a link to its real
        path relative to the root. */
    lemma FoundAt(searchPath: string, name: string)
      ensures Probe(searchPath, name).None? <==> Missing(searchPath, name)
      ensures lstat(JoinPath3(driverRoot, searchPath, name)) == Plain ==>
        Probe(searchPath, name) == Some(JoinPath(searchPath, name))
    {
    }

    lemma {:induction false} ResolvesFrom(paths: seq<string>, name: string)
      ensures (forall p :: p in paths ==> Missing(p, name)) ==> ResolveFrom(paths, name) == ""
      ensures forall i :: FirstHit(paths, name, i) ==> Probe(paths[i], name) == Some(ResolveFrom(paths, name))
      decreases paths
    {
      hide Probe, Missing;
      if paths != [] {
        FoundAt(paths[0], name);
        ResolvesFrom(paths[1..], name);
        forall i | FirstHit(paths, name, i)
          ensures Probe(paths[i], name) == Some(ResolveFrom(paths, name))
        {
          FoundAt(paths[i], name);
          if i > 0 {
            assert FirstHit(paths[1..], name, i - 1);
          }
        }
      }
    }

    /** The path a resolved library is read from. */
    function Full(resolved: string): string {
      JoinPath(driverRoot, resolved)
    }

    function Fulls(resolved: seq<string>): (fulls: seq<string>)
      ensures |fulls| == |resolved|
    {
      seq(|resolved|, i requires 0 <= i < |resolved| => Full(resolved[i]))
    }

    /** `name` is a DT_NEEDED entry of node `x` that resolves to `resolved`. */
    ghost predicate Needs(x: string, name: string, resolved: string) {
      x in needed && name in needed[x] && resolved != "" && Resolve(name) == resolved
    }

    ghost predicate Edge(x: string, y: string) {
      exists name, resolved :: Needs(x, name, resolved) && Full(resolved) == y
    }

    /** The dependency graph; a node that cannot be read has no successors. */
    ghost function Graph(): Relation {
      (x, y) => Edge(x, y)
    }

    /** `resolved` is what some node reachable from `start` needs. */
    ghost predicate ReachableLibrary(start: string, resolved: string) {
      exists x, name :: Reachable(Graph(), start, x) && Needs(x, name, resolved)
    }

    /** None of the names needs a further visit. */
    ghost predicate AllKnown(names: seq<string>, visited: set<string>) {
      forall name :: name in names && Resolve(name) != "" ==> Full(Resolve(name)) in visited
    }

    lemma KnownNone(names: seq<string>, visited: set<string>)
      ensures AllKnown(names[..0], visited)
    {
    }

    lemma KnownPush(names: seq<string>, i: nat, visited: set<string>, visited': set<string>)
      requires i < |names| && AllKnown(names[..i], visited) && visited <= visited'
      requires Resolve(names[i]) == "" || Full(Resolve(names[i])) in visited'
      ensures AllKnown(names[..i + 1], visited')
    {
      forall name | name in names[..i + 1] && Resolve(name) != ""
        ensures Full(Resolve(name)) in visited'
      {
        if name in names[..i] {
          assert Full(Resolve(name)) in visited;
        }
      }
    }

    lemma ExpandedNode(current: string, visited: set<string>, order: seq<string>)
      requires forall x :: x in visited ==> x in order
      requires current in needed ==> AllKnown(needed[current], visited)
      ensures forall y :: Graph()(current, y) ==> y in order
    {
    }

    /** Every place a needed library can resolve to; it bounds the search. */
    ghost function Places(): set<string> {
      set x, name | x in needed && name in needed[x] :: Full(Resolve(name))
    }

    /** Visiting a new library keeps the traversal invariant. */
    lemma Discover(start: string, order: seq<string>, depth: seq<nat>, k: nat, name: string, result: seq<string>)
      requires Frontier(Graph(), start, order, depth, k) && k < |order| && |depth| == |order|
      requires order == [start] + Fulls(result)
      requires order[k] in needed && name in needed[order[k]] && Resolve(name) != ""
      requires Full(Resolve(name)) !in order
      ensures Frontier(Graph(), start, order + [Full(Resolve(name))], depth + [depth[k] + 1], k)
      ensures order + [Full(Resolve(name))] == [start] + Fulls(result + [Resolve(name)])
      ensures ReachableLibrary(start, Resolve(name))
      ensures Full(Resolve(name)) in Places()
    {
      assert Needs(order[k], name, Resolve(name));
      FrontierReaches(Graph(), start, order, depth, k);
      FrontierPush(Graph(), start, order, depth, k, Full(Resolve(name)));
    }

    /** The worklist search: terminates on every graph, cyclic ones included. */
    method Run(libraryPath: string) returns (result: seq<string>)
      ensures forall r :: r in result ==> ReachableLibrary(libraryPath, r)
      ensures Delivers(Graph(), libraryPath, Fulls(result))
    {
      hide Full, Resolve, Frontier, AllKnown, Delivers, Places, ReachableLibrary, Fulls;
      var visited := {libraryPath};
      result := [];
      var queue := [libraryPath];
      ghost var order, depth, k := [libraryPath], [0], 0;
      FrontierStart(Graph(), libraryPath);
      while queue != []
        invariant order == [libraryPath] + Fulls(result)
        invariant Frontier(Graph(), libraryPath, order, depth, k)
        invariant |depth| == |order| && k <= |order| && queue == order[k..]
        invariant forall x :: x in visited <==> x in order
        invariant forall r :: r in result ==> ReachableLibrary(libraryPath, r)
        decreases Places() - visited, |queue|
      {
        var current := queue[0];
        queue := queue[1..];
        assert current == order[k];
        if current in needed {
          ghost var seen, pending := visited, |queue|;
          var names := needed[current];
          KnownNone(names, visited);
          for i := 0 to |names|
            invariant order == [libraryPath] + Fulls(result)
            invariant Frontier(Graph(), libraryPath, order, depth, k)
            invariant |depth| == |order| && k < |order| && order[k] == current && queue == order[k + 1..]
            invariant forall x :: x in visited <==> x in order
            invariant forall r :: r in result ==> ReachableLibrary(libraryPath, r)
            invariant AllKnown(names[..i], visited)
            invariant (visited == seen && |queue| == pending) || Places() - visited < Places() - seen
          {
            var resolved := ResolveLibrary(names[i]);
            if resolved == "" {
              KnownPush(names, i, visited, visited);
              continue;
            }
            var fullPath := Full(resolved);
            if fullPath in visited {
              KnownPush(names, i, visited, visited);
              continue;
            }
            Discover(libraryPath, order, depth, k, names[i], result);
            KnownPush(names, i, visited, visited + {fullPath});
            visited := visited + {fullPath};
            result := result + [resolved];
            assert (order + [fullPath])[k + 1..] == queue + [fullPath];
            queue := queue + [fullPath];
            order, depth := order + [fullPath], depth + [depth[k] + 1];
          }
        }
        assert current in needed ==> needed[current][..|needed[current]|] == needed[current];
        ExpandedNode(current, visited, order);
        FrontierAdvance(Graph(), libraryPath, order, depth, k);
        k := k + 1;
      }
      FrontierDelivers(Graph(), libraryPath, Fulls(result), depth);
    }

    /** Places determine libraries when all resolved paths are clean, which they
        are unless a link leads out of the root. */
    lemma CleanPathsStayApart(start: string)
      requires CleanAbs(driverRoot) && forall r :: ReachableLibrary(start, r) ==> CleanAbs(r)
      ensures forall r, s :: ReachableLibrary(start, r) && ReachableLibrary(start, s) && Full(r) == Full(s) ==> r == s
    {
      hide ReachableLibrary, CleanAbs;
      forall r, s | ReachableLibrary(start, r) && ReachableLibrary(start, s) && Full(r) == Full(s)
        ensures r == s
      {
        JoinInjective(driverRoot, r, s);
      }
    }

    /** The roots and search paths are clean, links evaluate to clean paths, and no
        DT_NEEDED entry names the root directory itself. */
    ghost predicate Tidy() {
      && (driverRoot == "" || CleanAbs(driverRoot))
      && (forall p :: p in searchPaths ==> CleanAbs(p))
      && (forall p :: lstat(p).Symlink? && lstat(p).realPath.Some? ==> CleanAbs(lstat(p).realPath.value))
      && forall x, name, p :: x in needed && name in needed[x] && p in searchPaths ==> JoinPath(p, name) != "/"
    }

    lemma {:induction false} FoundByProbe(paths: seq<string>, name: string) returns (p: string)
      requires ResolveFrom(paths, name) != ""
      ensures p in paths && Probe(p, name) == Some(ResolveFrom(paths, name))
      decreases paths
    {
      hide Probe;
      match Probe(paths[0], name)
      case Some(_) => p := paths[0];
      case None => p := FoundByProbe(paths[1..], name);
    }

    /** What a library was resolved to can be told from where it is read. */
    function ReadBack(place: string): string {
      if driverRoot == "" then place
      else match Rel(driverRoot, place) case None => "" case Some(rel) => "/" + rel
    }

    lemma ProbeReadBack(searchPath: string, name: string)
      requires driverRoot == "" || CleanAbs(driverRoot)
      requires CleanAbs(searchPath) && JoinPath(searchPath, name) != "/" && Probe(searchPath, name).Some?
      requires var stat := lstat(JoinPath3(driverRoot, searchPath, name));
        stat.Symlink? && stat.realPath.Some? ==> CleanAbs(stat.realPath.value)
      ensures ReadBack(Full(Probe(searchPath, name).value)) == Probe(searchPath, name).value
    {
      hide Components, Join, Clean;
      var stat := lstat(JoinPath3(driverRoot, searchPath, name));
      if stat.Symlink? {
        if driverRoot != "" {
          RelRoundTrip(driverRoot, stat.realPath.value);
        } else {
          NoRelFromNowhere(stat.realPath.value);
        }
      } else {
        LeafIsClean(searchPath, name);
        var leaf := JoinPath(searchPath, name);
        if driverRoot != "" {
          RelOfJoin(driverRoot, leaf);
        }
        assert leaf == "/" + leaf[1..];
      }
    }

    static lemma NoRelFromNowhere(target: string)
      requires Rooted(target)
      ensures Rel("", target) == None
    {
    }

    static lemma LeafIsClean(dir: string, name: string)
      requires CleanAbs(dir)
      ensures CleanAbs(JoinPath(dir, name)) && Clean(JoinPath(dir, name)) == JoinPath(dir, name)
    {
      hide Components;
      CleanRooted(dir);
      CleanRooted(dir + "/" + name);
    }

    lemma ProbedText(searchPath: string, name: string)
      requires (searchPath != "" || name != "") && Probe(searchPath, name).Some?
      ensures Probe(searchPath, name).value != ""
    {
      hide Clean;
      CleanNotEmpty(searchPath);
      CleanNotEmpty(name);
      CleanNotEmpty(searchPath + "/" + name);
    }

    lemma FoundFile(searchPath: string, name: string)
      requires driverRoot == "" || CleanAbs(driverRoot)
      requires CleanAbs(searchPath) && Proper(name) && !Missing(searchPath, name)
      requires var stat := lstat(JoinPath3(driverRoot, searchPath, name));
        stat.Symlink? && stat.realPath.Some? ==> CleanAbs(stat.realPath.value)
      ensures Probe(searchPath, name).Some?
      ensures Full(Probe(searchPath, name).value) == FileThere(searchPath, name)
    {
      hide Components, Join, Clean, JoinPath3;
      var stat := lstat(JoinPath3(driverRoot, searchPath, name));
      FoundAt(searchPath, name);
      LeafIsClean(searchPath, name);
      if driverRoot != "" {
        FullIsTheFileFound(searchPath, name);
      } else if stat.Symlink? {
        NoRelFromNowhere(stat.realPath.value);
      } else {
        JoinBelowNothing(searchPath, name);
      }
    }

    static lemma JoinBelowNothing(dir: string, name: string)
      requires CleanAbs(dir) && Proper(name)
      ensures JoinPath3("", dir, name) == JoinPath(dir, name)
      ensures JoinPath("", JoinPath(dir, name)) == JoinPath(dir, name)
    {
      hide Components;
      LeafIsClean(dir, name);
    }

    /** A name resolves to nothing exactly when it is missing on every search path;
        otherwise the file read is the one at the first path where it is not. */
    lemma ResolvesToFirst(name: string)
      requires name != "" || "" !in searchPaths
      ensures Resolve(name) == "" <==> forall p :: p in searchPaths ==> Missing(p, name)
      ensures Resolve(name) != "" <==> exists i :: FirstHit(searchPaths, name, i)
      ensures forall i :: FirstHit(searchPaths, name, i) ==>
        lstat(JoinPath3(driverRoot, searchPaths[i], name)) == Plain ==> Resolve(name) == JoinPath(searchPaths[i], name)
      ensures Tidy() && Proper(name) ==>
        forall i :: FirstHit(searchPaths, name, i) ==> Full(Resolve(name)) == FileThere(searchPaths[i], name)
    {
      hide Probe, Missing, CleanAbs, Full, FileThere, ResolveFrom, JoinPath, JoinPath3;
      ResolvesFrom(searchPaths, name);
      forall i | FirstHit(searchPaths, name, i)
        ensures Resolve(name) != ""
        ensures lstat(JoinPath3(driverRoot, searchPaths[i], name)) == Plain ==>
          Resolve(name) == JoinPath(searchPaths[i], name)
        ensures Tidy() && Proper(name) ==> Full(Resolve(name)) == FileThere(searchPaths[i], name)
      {
        FoundAt(searchPaths[i], name);
        ProbedText(searchPaths[i], name);
        if Tidy() && Proper(name) {
          FoundFile(searchPaths[i], name);
        }
      }
      if exists p :: p in searchPaths && !Missing(p, name) {
        var k :| 0 <= k < |searchPaths| && !Missing(searchPaths[k], name);
        var i := SomeFirst(name, k);
      }
    }

    lemma {:induction false} SomeFirst(name: string, k: nat) returns (i: nat)
      requires k < |searchPaths| && !Missing(searchPaths[k], name)
      ensures FirstHit(searchPaths, name, i)
    {
      hide Missing;
      if j: nat :| j < k && !Missing(searchPaths[j], name) {
        i := SomeFirst(name, j);
      } else {
        i := k;
      }
    }

    lemma NeededReadBack(x: string, name: string, r: string)
      requires Tidy() && Needs(x, name, r)
      ensures ReadBack(Full(r)) == r
    {
      hide Probe, CleanAbs, ReadBack, Full;
      var p := FoundByProbe(searchPaths, name);
      ProbeReadBack(p, name);
    }

    /** On a tidy filesystem places determine libraries, links that lead out of the
        root included. */
    lemma TidyPlacesStayApart(start: string)
      requires Tidy()
      ensures forall r, s :: ReachableLibrary(start, r) && ReachableLibrary(start, s) && Full(r) == Full(s) ==> r == s
    {
      hide Tidy, Needs, Full, ReadBack;
      forall r | ReachableLibrary(start, r)
        ensures ReadBack(Full(r)) == r
      {
        var x, name :| Reachable(Graph(), start, x) && Needs(x, name, r);
        NeededReadBack(x, name, r);
      }
    }

    /** So a run on a tidy filesystem is exact. */
    lemma ExactOnTidyFilesystem(start: string, result: seq<string>)
      requires Tidy()
      requires forall r :: r in result ==> ReachableLibrary(start, r)
      requires Delivers(Graph(), start, Fulls(result))
      ensures forall r :: r in result <==> ReachableLibrary(start, r) && Full(r) != start
      ensures Distinct(result)
    {
      hide Tidy, ReachableLibrary, Delivers, Full, Fulls;
      TidyPlacesStayApart(start);
      ExactLibraries(start, result);
    }

    /** When places determine libraries, a run returns exactly the libraries that
        reachable nodes need, other than the start itself. */
    lemma ExactLibraries(start: string, result: seq<string>)
      requires forall r :: r in result ==> ReachableLibrary(start, r)
      requires Delivers(Graph(), start, Fulls(result))
      requires forall r, s :: ReachableLibrary(start, r) && ReachableLibrary(start, s) && Full(r) == Full(s) ==> r == s
      ensures forall r :: r in result <==> ReachableLibrary(start, r) && Full(r) != start
      ensures Distinct(result)
    {
      hide Full, Resolve, Reachable, ReachableLibrary;
      var found := Fulls(result);
      forall i | 0 <= i < |result|
        ensures Full(result[i]) != start
      {
        assert ([start] + found)[0] != ([start] + found)[i + 1];
      }
      forall i, j | 0 <= i < j < |result|
        ensures result[i] != result[j]
      {
        assert ([start] + found)[i + 1] != ([start] + found)[j + 1];
      }
      forall r | ReachableLibrary(start, r) && Full(r) != start
        ensures r in result
      {
        ReachableLibraryIsReachable(start, r);
        var i :| 0 <= i < |found| && found[i] == Full(r);
        assert result[i] in result;
      }
    }

    lemma ReachableLibraryIsReachable(start: string, r: string)
      requires ReachableLibrary(start, r)
      ensures Reachable(Graph(), start, Full(r))
    {
      var x, name :| Reachable(Graph(), start, x) && Needs(x, name, r);
      ReachableStep(Graph(), start, x, Full(r));
    }

    /** The search reads on from the very file it found: the candidate itself,
        or the real file behind a link, wherever that lies. */
    lemma FullIsTheFileFound(searchPath: string, name: string)
      requires CleanAbs(driverRoot) && CleanAbs(searchPath) && Proper(name)
      requires Probe(searchPath, name).Some?
      ensures var candidate := JoinPath3(driverRoot, searchPath, name);
        match lstat(candidate)
        case Symlink(Some(realPath)) => CleanAbs(realPath) ==> Full(Probe(searchPath, name).value) == realPath
        case _ => Full(Probe(searchPath, name).value) == candidate
    {
      match lstat(JoinPath3(driverRoot, searchPath, name))
      case Symlink(Some(realPath)) =>
        if CleanAbs(realPath) {
          RelRoundTrip(driverRoot, realPath);
        }
      case _ =>
        JoinLeaf(driverRoot, searchPath, name);
    }
  }
}
