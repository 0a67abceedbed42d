/** ProbeRBLNLibraries of internal/discover/umdfingerprint.go: the snapshot the
    watcher compares from tick to tick. */
module LibraryProbe {
  import opened Strings
  import opened BuildId

  const GLOBS := ["librbln-ccl.so*", "librbln-thunk.so*"]

  /** What EvalSymlinks says about a match. */
  datatype Resolution = NoSuchFile | Broken | Real(path: string)

  /** The filesystem during one probe. `glob` is None on a bad pattern; `file` is
      None for a file that has vanished. */
  datatype View = View(
    glob: (string, string) -> Option<seq<string>>,
    resolve: string -> Resolution,
    file: string -> Option<LibraryFile>)
  {
    function MatchesOf(dir: string, patterns: seq<string>): seq<string> {
      if patterns == [] then []
      else
        var found := glob(dir, patterns[|patterns| - 1]);
        MatchesOf(dir, patterns[..|patterns| - 1]) + if found.Some? then found.value else []
    }

    function AllMatches(dirs: seq<string>): seq<string> {
      if dirs == [] then [] else AllMatches(dirs[..|dirs| - 1]) + MatchesOf(dirs[|dirs| - 1], GLOBS)
    }

    /** Some match is, or links to, this file. */
    predicate Target(matches: seq<string>, path: string) {
      exists m :: m in matches && resolve(m) == Real(path)
    }

    function Print(path: string): Option<string> {
      match file(path)
      case None => None
      case Some(f) => match Fingerprint(f) case Ok(fp) => Some(fp) case Err(_) => None
    }

    /** The snapshot for a list of matches: every target that can be
        fingerprinted, with its fingerprint, and nothing else. */
    ghost predicate SnapshotOf(matches: seq<string>, prints: map<string, string>) {
      && (forall p :: p in prints <==> Target(matches, p) && file(p).Some? && Fingerprint(file(p).value).Ok?)
      && (forall p :: p in prints ==> Ok(prints[p]) == Fingerprint(file(p).value) && prints[p] != "")
    }

    /** `seen` are the targets met, each examined once. */
    ghost predicate Progress(matches: seq<string>, prints: map<string, string>, seen: set<string>,
                             examined: seq<string>) {
      && SnapshotOf(matches, prints)
      && (forall p :: p in seen <==> Target(matches, p))
      && (forall p :: p in seen <==> p in examined)
      && forall i, j :: 0 <= i < j < |examined| ==> examined[i] != examined[j]
    }

    predicate Finds(dir: string, pattern: string, m: string) {
      glob(dir, pattern).Some? && m in glob(dir, pattern).value
    }

    lemma {:induction false} MatchesMean(dir: string, patterns: seq<string>, m: string)
      ensures m in MatchesOf(dir, patterns) <==> exists pattern :: pattern in patterns && Finds(dir, pattern, m)
    {
      if patterns != [] {
        var front, last := patterns[..|patterns| - 1], patterns[|patterns| - 1];
        assert patterns == front + [last];
        MatchesMean(dir, front, m);
        assert forall x :: x in patterns <==> x in front || x == last;
        assert m in MatchesOf(dir, patterns) <==> m in MatchesOf(dir, front) || Finds(dir, last, m);
      }
    }

    lemma {:induction false} DirsMatch(dirs: seq<string>, m: string)
      ensures m in AllMatches(dirs) <==> exists dir :: dir in dirs && m in MatchesOf(dir, GLOBS)
    {
      hide MatchesOf;
      if dirs != [] {
        var front, last := dirs[..|dirs| - 1], dirs[|dirs| - 1];
        assert dirs == front + [last];
        DirsMatch(front, m);
        assert forall x :: x in dirs <==> x in front || x == last;
        assert m in AllMatches(dirs) <==> m in AllMatches(front) || m in MatchesOf(last, GLOBS);
      }
    }

    /** The matches are what the two library globs find in the directories. */
    lemma AllMatchesMeans(dirs: seq<string>, m: string)
      ensures m in AllMatches(dirs) <==>
        exists dir :: dir in dirs && (Finds(dir, "librbln-ccl.so*", m) || Finds(dir, "librbln-thunk.so*", m))
    {
      hide MatchesOf, AllMatches, Finds;
      DirsMatch(dirs, m);
      forall dir | dir in dirs
        ensures m in MatchesOf(dir, GLOBS) <==>
          Finds(dir, "librbln-ccl.so*", m) || Finds(dir, "librbln-thunk.so*", m)
      {
        MatchesMean(dir, GLOBS, m);
        assert GLOBS[0] in GLOBS && GLOBS[1] in GLOBS;
      }
    }

    lemma TargetPush(matches: seq<string>, m: string)
      ensures forall p :: Target(matches + [m], p) <==> Target(matches, p) || resolve(m) == Real(p)
    {
      forall p
        ensures Target(matches + [m], p) <==> Target(matches, p) || resolve(m) == Real(p)
      {
        assert m in matches + [m];
        assert forall x :: x in matches ==> x in matches + [m];
      }
    }

    lemma PrintNotEmpty(path: string)
      ensures Print(path).Some? <==> file(path).Some? && Fingerprint(file(path).value).Ok?
      ensures Print(path).Some? ==> Ok(Print(path).value) == Fingerprint(file(path).value) && Print(path).value != ""
    {
      hide Fingerprint;
      if file(path).Some? && Fingerprint(file(path).value).Ok? {
        FingerprintIdentifies(file(path).value, file(path).value);
      }
    }

    /** Links to one file are examined once; files that vanish or cannot be
        examined are left out without stopping the scan. */
    method ProbeRblnLibraries(libDirs: seq<string>) returns (prints: map<string, string>, examined: seq<string>)
      ensures SnapshotOf(AllMatches(libDirs), prints)
      ensures forall p :: p in examined <==> Target(AllMatches(libDirs), p)
      ensures forall i, j :: 0 <= i < j < |examined| ==> examined[i] != examined[j]
    {
      hide Print, MatchesOf, Target;
      prints, examined := map[], [];
      var seen: set<string> := {};
      NoTargets();
      for d := 0 to |libDirs|
        invariant Progress(AllMatches(libDirs[..d]), prints, seen, examined)
      {
        assert libDirs[..d + 1][..d] == libDirs[..d];
        var matches := Glob(libDirs[d]);
        ghost var before := AllMatches(libDirs[..d]);
        assert before + matches[..0] == before;
        for i := 0 to |matches|
          invariant Progress(before + matches[..i], prints, seen, examined)
        {
          ghost var handled := before + matches[..i];
          assert before + matches[..i + 1] == handled + [matches[i]];
          TargetPush(handled, matches[i]);
          var resolved := resolve(matches[i]);
          if !resolved.Real? || resolved.path in seen {
            continue;
          }
          seen := seen + {resolved.path};
          examined := examined + [resolved.path];
          PrintNotEmpty(resolved.path);
          var fp := Print(resolved.path);
          if fp.Some? {
            prints := prints[resolved.path := fp.value];
          }
        }
        assert matches[..|matches|] == matches;
      }
      assert libDirs[..|libDirs|] == libDirs;
    }

    method Glob(dir: string) returns (matches: seq<string>)
      ensures matches == MatchesOf(dir, GLOBS)
    {
      matches := [];
      for i := 0 to |GLOBS|
        invariant matches == MatchesOf(dir, GLOBS[..i])
      {
        assert GLOBS[..i + 1][..i] == GLOBS[..i];
        var found := glob(dir, GLOBS[i]);
        if found.Some? {
          matches := matches + found.value;
        }
      }
      assert GLOBS[..|GLOBS|] == GLOBS;
    }

    lemma NoTargets()
      ensures Progress(AllMatches([]), map[], {}, [])
    {
    }
  }
}
