/** CRI-O's layered configuration (internal/runtime/crio_config.go) and the
    toolkit's drop-in file written by internal/runtime/configure.go. */
module CrioConfig {
  import opened Strings
  import opened ConfigTree
  import opened ContainerdConfig

  datatype Stat = Missing | IsDir | IsFile | StatError

  datatype Listing = NoDir | ListError | Entries(entries: seq<Entry>)

  datatype Entry = Entry(name: string, isDir: bool)

  /** A configuration file in precedence order: the main file, or a drop-in. */
  datatype ConfigFile = MainConf | DropIn(name: string)

  /** Names of the entries that are not directories. */
  function FileNames(entries: seq<Entry>): seq<string> {
    if entries == [] then []
    else (if entries[0].isDir then [] else [entries[0].name]) + FileNames(entries[1..])
  }

  lemma {:induction false} FileNamesPush(entries: seq<Entry>, e: Entry)
    ensures FileNames(entries + [e]) == FileNames(entries) + if e.isDir then [] else [e.name]
  {
    if entries != [] {
      assert (entries + [e])[1..] == entries[1..] + [e];
      FileNamesPush(entries[1..], e);
    }
  }

  function DropIns(names: seq<string>): (files: seq<ConfigFile>)
    ensures |files| == |names|
  {
    seq(|names|, i requires 0 <= i < |names| => DropIn(names[i]))
  }

  /** crioConfigFiles: the main file, then every non-directory drop-in, sorted. */
  method CrioConfigFiles(main: Stat, listing: Listing) returns (files: Option<seq<ConfigFile>>)
    ensures files.None? <==> main == StatError || listing == ListError
    ensures files.Some? ==> Layered(main, listing, files.value)
  {
    if main == StatError {
      return None;
    }
    var found := if main == IsFile then [MainConf] else [];
    match listing
    case ListError => return None;
    case NoDir =>
      assert found + DropIns([]) == found && Sorted([]);
      return Some(found);
    case Entries(entries) =>
      var names: seq<string> := [];
      for i := 0 to |entries|
        invariant names == FileNames(entries[..i])
      {
        FileNamesPush(entries[..i], entries[i]);
        assert entries[..i + 1] == entries[..i] + [entries[i]];
        if entries[i].isDir {
          continue;
        }
        names := names + [entries[i].name];
      }
      assert entries[..|entries|] == entries;
      var sorted := SortStrings(names);
      return Some(found + DropIns(sorted));
  }

  /** The files in ascending precedence: what CrioConfigFiles returns. */
  ghost predicate Layered(main: Stat, listing: Listing, files: seq<ConfigFile>) {
    exists sorted ::
      Sorted(sorted)
      && multiset(sorted) == multiset(if listing.Entries? then FileNames(listing.entries) else [])
      && files == (if main == IsFile then [MainConf] else []) + DropIns(sorted)
  }

  /** crio.runtime.cdi_spec_dirs of one parsed file. */
  function SpecDirsOf(root: Tree): Option<seq<string>> {
    SpecDirsIn(TableOrNew(TableOrNew(root, "crio"), "runtime"))
  }

  /** What each file contributes: nothing if it cannot be read or parsed. */
  function Contribution(toml: Codec, text: map<ConfigFile, string>, f: ConfigFile): Option<seq<string>> {
    if f !in text then None
    else
      match toml.parse(text[f])
      case None => None
      case Some(root) => SpecDirsOf(root)
  }

  /** File `i` is the highest-precedence one that sets the key. */
  predicate Wins(toml: Codec, text: map<ConfigFile, string>, files: seq<ConfigFile>, i: int) {
    && 0 <= i < |files| && Contribution(toml, text, files[i]).Some?
    && forall j :: i < j < |files| ==> Contribution(toml, text, files[j]).None?
  }

  predicate NobodySets(toml: Codec, text: map<ConfigFile, string>, files: seq<ConfigFile>) {
    forall f :: f in files ==> Contribution(toml, text, f).None?
  }

  method CrioEffectiveSpecDirs(toml: Codec, text: map<ConfigFile, string>, files: seq<ConfigFile>)
    returns (dirs: seq<string>, present: bool)
    ensures !present ==> NobodySets(toml, text, files)
    ensures present ==> exists i :: Wins(toml, text, files, i) && Contribution(toml, text, files[i]) == Some(dirs)
  {
    dirs, present := [], false;
    ghost var winner := 0;
    for i := 0 to |files|
      invariant !present ==> forall j :: 0 <= j < i ==> Contribution(toml, text, files[j]).None?
      invariant present ==>
        Wins(toml, text, files[..i], winner) && Contribution(toml, text, files[winner]) == Some(dirs)
    {
      var d := Contribution(toml, text, files[i]);
      if d.Some? {
        dirs, present, winner := d.value, true, i;
      }
    }
    assert files[..|files|] == files;
  }

  ghost predicate ScansSpecDir(toml: Codec, text: map<ConfigFile, string>, files: seq<ConfigFile>) {
    NobodySets(toml, text, files)
    || exists i :: Wins(toml, text, files, i) && Covers(Contribution(toml, text, files[i]).value, SPEC_DIR)
  }

  /** crioScansSpecDir: None is its error. */
  method CrioScansSpecDir(toml: Codec, text: map<ConfigFile, string>, main: Stat, listing: Listing)
    returns (ready: Option<bool>)
    ensures ready.None? <==> main == StatError || listing == ListError
    ensures ready.Some? ==>
      exists files :: Layered(main, listing, files) && ready.value == ScansSpecDir(toml, text, files)
  {
    var files := CrioConfigFiles(main, listing);
    if files.None? {
      return None;
    }
    var dirs, present := CrioEffectiveSpecDirs(toml, text, files.value);
    if !present {
      return Some(true);
    }
    ghost var i :| Wins(toml, text, files.value, i) && Contribution(toml, text, files.value[i]) == Some(dirs);
    WinnerUnique(toml, text, files.value, i);
    var covered := ContainsCleanPath(dirs, SPEC_DIR);
    return Some(covered);
  }

  lemma WinnerUnique(toml: Codec, text: map<ConfigFile, string>, files: seq<ConfigFile>, i: int)
    requires Wins(toml, text, files, i)
    ensures forall j :: Wins(toml, text, files, j) ==> j == i
    ensures !NobodySets(toml, text, files)
    ensures i < |files|
  {
    assert files[i] in files;
  }

  /** `later` is a drop-in CRI-O reads after `dropIn` that sets the key. */
  predicate Overrides(toml: Codec, text: map<ConfigFile, string>, names: seq<string>, dropIn: string, later: string) {
    later in names && later != dropIn && LessEq(dropIn, later) && Contribution(toml, text, DropIn(later)).Some?
  }

  /** `last` is the lexically last such drop-in. */
  predicate LastOverride(toml: Codec, text: map<ConfigFile, string>, names: seq<string>, dropIn: string, last: string) {
    && Overrides(toml, text, names, dropIn, last)
    && forall other :: other in names && Overrides(toml, text, names, dropIn, other) ==> LessEq(other, last)
  }

  lemma {:induction false} SomeoneWins(toml: Codec, text: map<ConfigFile, string>, files: seq<ConfigFile>, i: nat)
    returns (w: nat)
    requires i < |files| && Contribution(toml, text, files[i]).Some?
    ensures Wins(toml, text, files, w) && i <= w < |files|
    decreases |files| - i
  {
    hide Contribution;
    if j: nat :| i < j < |files| && Contribution(toml, text, files[j]).Some? {
      w := SomeoneWins(toml, text, files, j);
    } else {
      w := i;
    }
  }

  lemma DistinctSorted(names: seq<string>, sorted: seq<string>)
    requires multiset(sorted) == multiset(names) && Sorted(sorted)
    requires forall i, j :: 0 <= i < j < |names| ==> names[i] != names[j]
    ensures forall x :: x in sorted <==> x in names
    ensures forall i, j :: 0 <= i < |sorted| && 0 <= j < |sorted| ==>
      (LessEq(sorted[i], sorted[j]) <==> i <= j)
  {
    forall x
      ensures x in sorted <==> x in names
    {
      assert x in multiset(sorted) <==> x in multiset(names);
    }
    forall i, j | 0 <= i < j < |sorted|
      ensures sorted[i] != sorted[j]
    {
      if sorted[i] == sorted[j] {
        Twice(sorted, i, j);
        OnceEach(names, sorted[i]);
      }
    }
    forall i, j | 0 <= i < |sorted| && 0 <= j < |sorted|
      ensures LessEq(sorted[i], sorted[j]) <==> i <= j
    {
      LessEqTotal(sorted[i], sorted[j]);
    }
  }

  /** With the toolkit's drop-in in place, whatever the main file and the earlier
      drop-ins say, CRI-O scans the spec dir exactly when no lexically later
      drop-in sets the key or the last one that does covers it. */
  lemma DropInDecides(toml: Codec, text: map<ConfigFile, string>, main: Stat, entries: seq<Entry>,
                      files: seq<ConfigFile>, dropIn: string)
    requires Layered(main, Entries(entries), files)
    requires var names := FileNames(entries);
      dropIn in names && forall i, j :: 0 <= i < j < |names| ==> names[i] != names[j]
    requires Contribution(toml, text, DropIn(dropIn)) == Some([CONFIG_DIR, SPEC_DIR])
    ensures var names := FileNames(entries);
      ScansSpecDir(toml, text, files) <==>
        ((forall later :: later in names ==> !Overrides(toml, text, names, dropIn, later))
         || exists last :: LastOverride(toml, text, names, dropIn, last)
              && Covers(Contribution(toml, text, DropIn(last)).value, SPEC_DIR))
  {
    hide Contribution, Covers, LessEq, FileNames, Sorted, Overrides, LastOverride, Wins, NobodySets;
    var names := FileNames(entries);
    var sorted :| Sorted(sorted) && multiset(sorted) == multiset(names)
      && files == (if main == IsFile then [MainConf] else []) + DropIns(sorted);
    DistinctSorted(names, sorted);
    var off := if main == IsFile then 1 else 0;
    assert files[off..] == DropIns(sorted);
    var d :| 0 <= d < |sorted| && sorted[d] == dropIn;
    DecidedBySorted(toml, text, names, sorted, files, off, d);
  }

  lemma DecidedBySorted(toml: Codec, text: map<ConfigFile, string>, names: seq<string>, sorted: seq<string>,
                        files: seq<ConfigFile>, off: nat, d: nat)
    requires forall x :: x in sorted <==> x in names
    requires forall i, j :: 0 <= i < |sorted| && 0 <= j < |sorted| ==> (LessEq(sorted[i], sorted[j]) <==> i <= j)
    requires |files| == off + |sorted| && files[off..] == DropIns(sorted) && d < |sorted|
    requires Contribution(toml, text, DropIn(sorted[d])) == Some([CONFIG_DIR, SPEC_DIR])
    ensures ScansSpecDir(toml, text, files) <==>
        ((forall later :: later in names ==> !Overrides(toml, text, names, sorted[d], later))
         || exists last :: LastOverride(toml, text, names, sorted[d], last)
              && Covers(Contribution(toml, text, DropIn(last)).value, SPEC_DIR))
  {
    hide Contribution, Covers, LessEq, Overrides, LastOverride, Wins, NobodySets;
    assert files[off + d] == files[off..][d];
    var w := SomeoneWins(toml, text, files, off + d);
    assert files[w] == files[off..][w - off];
    WinnerUnique(toml, text, files, w);
    WinnerOverrides(toml, text, names, sorted, files, off, d, w);
    DefaultDirsCover();
    if w > off + d {
      LastOverrideUnique(toml, text, names, sorted[d], sorted[w - off]);
    }
  }

  /** The winning file is the drop-in itself or the last drop-in overriding it. */
  lemma WinnerOverrides(toml: Codec, text: map<ConfigFile, string>, names: seq<string>, sorted: seq<string>,
                        files: seq<ConfigFile>, off: nat, d: nat, w: nat)
    requires forall x :: x in sorted <==> x in names
    requires forall i, j :: 0 <= i < |sorted| && 0 <= j < |sorted| ==> (LessEq(sorted[i], sorted[j]) <==> i <= j)
    requires |files| == off + |sorted| && files[off..] == DropIns(sorted)
    requires d < |sorted| && off + d <= w && Wins(toml, text, files, w)
    ensures w == off + d ==> forall x :: x in names ==> !Overrides(toml, text, names, sorted[d], x)
    ensures w > off + d ==> LastOverride(toml, text, names, sorted[d], sorted[w - off])
  {
    hide Contribution, LessEq;
    forall k | 0 <= k < |sorted|
      ensures files[off + k] == DropIn(sorted[k])
    {
      assert files[off + k] == files[off..][k];
    }
    forall x | x in names && Overrides(toml, text, names, sorted[d], x)
      ensures w > off + d && LessEq(x, sorted[w - off])
    {
      var k :| 0 <= k < |sorted| && sorted[k] == x;
      assert files[off + k] == DropIn(x);
      assert d < k;
    }
  }

  lemma LastOverrideUnique(toml: Codec, text: map<ConfigFile, string>, names: seq<string>, dropIn: string, last: string)
    requires LastOverride(toml, text, names, dropIn, last)
    ensures forall other :: LastOverride(toml, text, names, dropIn, other) ==> other == last
    ensures last in names && Overrides(toml, text, names, dropIn, last)
  {
    forall other | LastOverride(toml, text, names, dropIn, other)
      ensures other == last
    {
      LessEqTotal(other, last);
    }
  }

  lemma DefaultDirsCover()
    ensures Covers([CONFIG_DIR, SPEC_DIR], SPEC_DIR)
  {
    SpecDirIsClean();
    assert SPEC_DIR in [CONFIG_DIR, SPEC_DIR];
  }
}
