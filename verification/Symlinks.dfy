/** The symlink specifications computed in internal/cdi/generator.go, and what
    the container looks like once the hook has applied them. */
module Symlinks {
  import opened Strings
  import opened Paths
  import opened Soname
  import opened LinkHook
  import opened Libraries

  /** `readSoname` is None when the ELF file cannot be read; `linkExists` is false
      when there is no link or it cannot be examined. */
  datatype Linker = Linker(
    driverRoot: string, searchRoot: string, isolationPath: string,
    readSoname: string -> Option<string>, linkExists: string -> bool)
  {
    function HostPathForRead(path: string): string {
      if IsRoot(searchRoot) || searchRoot == driverRoot then path
      else JoinPath(searchRoot, EnsureSlash(TrimPrefix(path, driverRoot)))
    }

    function LinkExistsOnHost(dir: string, name: string): bool {
      name != "" && linkExists(HostPathForRead(JoinPath(dir, name)))
    }

    function ContainerDir(lib: Library): string {
      if isolationPath != "" then isolationPath else Dir(lib.containerPath)
    }

    /** The one or two links a library needs; none for a symlink entry. */
    function LinksOf(lib: Library): seq<string> {
      if lib.realPath != "" && lib.realPath != lib.path then []
      else
        match readSoname(HostPathForRead(lib.path))
        case None => []
        case Some(soname) => SonameLink(lib, soname) + SoLink(lib, soname)
    }

    function SonameLink(lib: Library, soname: string): seq<string> {
      var libraryName := Base(lib.path);
      if soname != libraryName && LinkExistsOnHost(Dir(lib.path), soname) then
        [FormatLink(libraryName, JoinPath(ContainerDir(lib), soname))]
      else []
    }

    function SoLink(lib: Library, soname: string): seq<string> {
      var target := if soname == "" then Base(lib.path) else soname;
      var link := GetSoLink(target);
      if link != "" && link != target && LinkExistsOnHost(Dir(lib.path), link) then
        [FormatLink(target, JoinPath(ContainerDir(lib), link))]
      else []
    }

    /** Where a file is read agrees with where discovery read it. */
    lemma ReadsTheFile(d: Discoverer, path: string, rel: string)
      requires d.driverRoot == driverRoot && d.searchRoot == searchRoot
      ensures searchRoot != "/" ==> HostPathForRead(path) == d.ToSearchRootPath(path)
      ensures searchRoot == "/" ==> HostPathForRead(path) == path
      ensures d.ValidRoots() && d.RootsPaired() && d.Placed(rel) ==>
        HostPathForRead(d.ToHostPath(d.File(rel), d.SearchRoot())) == d.File(rel)
    {
      hide JoinPath, Discoverer.ToContainerPath, Discoverer.ToHostPath, Discoverer.File;
      if d.ValidRoots() && d.RootsPaired() && d.Placed(rel) {
        d.MappingsInvert(rel);
        if searchRoot == "/" {
          d.HostPathText(rel);
          d.FileText(rel);
        }
      }
    }

    /** The first link wanted: the SONAME, where the file is called otherwise and the
        host has that link. */
    ghost predicate WantsSoname(lib: Library, soname: string) {
      soname != Base(lib.path) && soname != "" && linkExists(HostPathForRead(JoinPath(Dir(lib.path), soname)))
    }

    /** The second: the unversioned name, where it differs from what it leads to and
        the host has that link. */
    ghost predicate WantsSoLink(lib: Library, target: string) {
      && GetSoLink(target) != "" && GetSoLink(target) != target
      && linkExists(HostPathForRead(JoinPath(Dir(lib.path), GetSoLink(target))))
    }

    /** Exactly these links are emitted for a library that is no link itself and whose
        SONAME can be read, in this order. */
    lemma LinksExactly(lib: Library)
      ensures (lib.realPath != "" && lib.realPath != lib.path) || readSoname(HostPathForRead(lib.path)).None? ==>
        LinksOf(lib) == []
      ensures (lib.realPath == "" || lib.realPath == lib.path) && readSoname(HostPathForRead(lib.path)).Some? ==>
        var soname := readSoname(HostPathForRead(lib.path)).value;
        var target := if soname == "" then Base(lib.path) else soname;
        var dir := if isolationPath == "" then Dir(lib.containerPath) else isolationPath;
        LinksOf(lib) ==
          (if WantsSoname(lib, soname) then [Base(lib.path) + "::" + JoinPath(dir, soname)] else [])
          + (if WantsSoLink(lib, target) then [target + "::" + JoinPath(dir, GetSoLink(target))] else [])
    {
      hide GetSoLink, Base, Dir, JoinPath, HostPathForRead;
    }

    function AllLinks(libs: seq<Library>): seq<string> {
      if libs == [] then [] else AllLinks(libs[..|libs| - 1]) + LinksOf(libs[|libs| - 1])
    }

    /** Emits each wanted specification once, where it first comes up. */
    method ComputeSymlinks(libs: seq<Library>) returns (links: seq<string>)
      ensures links == FirstOccurrences(AllLinks(libs))
    {
      hide LinksOf;
      links := [];
      var seen: set<string> := {};
      for i := 0 to |libs|
        invariant links == FirstOccurrences(AllLinks(libs[..i]))
        invariant forall l :: l in seen <==> l in AllLinks(libs[..i])
      {
        assert libs[..i + 1][..i] == libs[..i];
        var specs := LinksOf(libs[i]);
        ghost var before := AllLinks(libs[..i]);
        assert before + specs[..0] == before;
        for k := 0 to |specs|
          invariant links == FirstOccurrences(before + specs[..k])
          invariant forall l :: l in seen <==> l in before + specs[..k]
        {
          assert before + specs[..k + 1] == before + specs[..k] + [specs[k]];
          assert (before + specs[..k + 1])[..|before| + k] == before + specs[..k];
          if specs[k] !in seen {
            links := links + [specs[k]];
            seen := seen + {specs[k]};
          }
        }
        assert specs[..|specs|] == specs;
      }
      assert libs[..|libs|] == libs;
    }

    lemma LinksEmitted(libs: seq<Library>, lib: Library, link: string)
      requires lib in libs && link in LinksOf(lib)
      ensures link in FirstOccurrences(AllLinks(libs))
    {
      hide LinksOf;
      AllLinksHold(libs, lib, link);
      OccurrencesKept(AllLinks(libs));
    }

    lemma {:induction false} AllLinksHold(libs: seq<Library>, lib: Library, link: string)
      requires lib in libs && link in LinksOf(lib)
      ensures link in AllLinks(libs)
    {
      hide LinksOf;
      var front := libs[..|libs| - 1];
      assert libs == front + [libs[|libs| - 1]];
      if lib in front {
        AllLinksHold(front, lib, link);
      }
    }

    /** Where, under the container root, a name of the library's directory is. */
    function PlaceOf(root: string, lib: Library, name: string): Place {
      Components(root) + Components(ContainerDir(lib)) + [name]
    }

    /** The files of this library as the container must offer them: the library is
        mounted in its link directory, both host links exist, and nobody else
        claims the three places. */
    ghost predicate Offered(root: string, fs: Files, libs: seq<Library>, lib: Library, soname: string) {
      var name, link := Base(lib.path), GetSoLink(soname);
      && lib in libs && (lib.realPath == "" || lib.realPath == lib.path)
      && CleanAbs(root) && CleanAbs(ContainerDir(lib))
      && Proper(name) && Proper(soname) && Cuttable(name) && Cuttable(soname)
      && readSoname(HostPathForRead(lib.path)) == Some(soname)
      && link != "" && link != soname
      && (soname != name ==> LinkExistsOnHost(Dir(lib.path), soname)) && LinkExistsOnHost(Dir(lib.path), link)
      && PlaceOf(root, lib, name) in fs && fs[PlaceOf(root, lib, name)] == File
      && forall text :: text in FirstOccurrences(AllLinks(libs)) && Decode(root, text).Some? ==>
           var spec := Decode(root, text).value;
           && spec.place != PlaceOf(root, lib, name)
           && (spec.place == PlaceOf(root, lib, soname) ==> spec.target == name)
           && (spec.place == PlaceOf(root, lib, link) ==> spec.target == soname)
    }
  }

  lemma {:induction false} OccurrencesKept(texts: seq<string>)
    ensures forall t :: t in FirstOccurrences(texts) <==> t in texts
  {
    if texts != [] {
      var front := texts[..|texts| - 1];
      OccurrencesKept(front);
      assert texts == front + [texts[|texts| - 1]];
    }
  }

  /** The link name of a proper file name is one too. */
  lemma {:induction false} SoLinkChars(s: string)
    ensures GetSoLink(s) != "" ==> HasSuffix(GetSoLink(s), ".so") && GetSoLink(s) <= s
    decreases |s|
  {
    ExtIsSuffix(s);
    if Ext(s) != "" && Ext(s) != ".so" {
      SoLinkChars(TrimSuffix(s, Ext(s)));
      assert TrimSuffix(s, Ext(s)) <= s;
    }
  }

  lemma SoLinkProper(s: string)
    requires Proper(s) && GetSoLink(s) != ""
    ensures Proper(GetSoLink(s))
  {
    SoLinkChars(s);
    var link := GetSoLink(s);
    assert forall c :: c in link ==> c in s;
    assert |link| >= 3;
  }

  /** An emitted specification decodes to its target at the intended place. */
  lemma EmittedDecodes(root: string, target: string, dir: string, name: string)
    requires CleanAbs(root) && CleanAbs(dir) && Proper(name) && Cuttable(target)
    ensures Decode(root, FormatLink(target, JoinPath(dir, name)))
      == Some(LinkSpec(target, Components(root) + Components(dir) + [name]))
  {
    hide Walk, Split, Cuttable;
    LinkRoundTrip(target, JoinPath(dir, name));
    CleanRooted(root);
    CleanRooted(dir);
    ComponentsOfLeaf(dir, name);
    var r, d := Components(root), Components(dir);
    JoinAbs(r, d + [name]);
    ComponentsOfAbs(r + (d + [name]));
    assert r + (d + [name]) == r + d + [name];
  }

  lemma {:induction false} DecodedMembers(root: string, texts: seq<string>, specs: seq<LinkSpec>)
    requires DecodeAll(root, texts) == Some(specs)
    ensures |specs| == |texts| && forall i :: 0 <= i < |texts| ==> Decode(root, texts[i]) == Some(specs[i])
  {
    hide Decode;
    if texts != [] {
      var n := |texts| - 1;
      DecodedMembers(root, texts[..n], DecodeAll(root, texts[..n]).value);
    }
  }

  /** If all claims on a place agree, that is its last target. */
  lemma {:induction false} AgreedTarget(specs: seq<LinkSpec>, p: Place, target: string)
    requires forall i :: 0 <= i < |specs| && specs[i].place == p ==> specs[i].target == target
    ensures (exists i :: 0 <= i < |specs| && specs[i].place == p) ==> LastTarget(specs, p) == Some(target)
    ensures (forall i :: 0 <= i < |specs| ==> specs[i].place != p) ==> LastTarget(specs, p) == None
  {
    if specs != [] {
      AgreedTarget(specs[..|specs| - 1], p, target);
    }
  }

  /** A claim made by some text, on which all texts agree, is what the hook makes. */
  lemma HookMakes(root: string, fs: Files, texts: seq<string>, text: string, p: Place, target: string)
    requires Tree(fs) && Executed(fs, root, texts).Some? && text in FirstOccurrences(texts)
    requires Decode(root, text) == Some(LinkSpec(target, p))
    requires forall t :: t in FirstOccurrences(texts) && Decode(root, t).Some? && Decode(root, t).value.place == p ==>
      Decode(root, t).value.target == target
    ensures var fs' := Executed(fs, root, texts).value;
      p in fs' && fs'[p] == Link(target)
  {
    hide Decode, Tree;
    var unique := FirstOccurrences(texts);
    var specs := DecodeAll(root, unique).value;
    DecodedMembers(root, unique, specs);
    ApplyLinks(fs, specs);
    var i :| 0 <= i < |unique| && unique[i] == text;
    assert specs[i].place == p;
    AgreedTarget(specs, p, target);
  }

  lemma HookKeeps(root: string, fs: Files, texts: seq<string>, p: Place)
    requires Tree(fs) && Executed(fs, root, texts).Some? && p in fs
    requires forall t :: t in FirstOccurrences(texts) && Decode(root, t).Some? ==> Decode(root, t).value.place != p
    ensures var fs' := Executed(fs, root, texts).value;
      p in fs' && fs'[p] == fs[p]
  {
    hide Decode, Tree;
    var unique := FirstOccurrences(texts);
    var specs := DecodeAll(root, unique).value;
    DecodedMembers(root, unique, specs);
    ApplyLinks(fs, specs);
    AgreedTarget(specs, p, "");
  }

  /** One step of following a link whose target is a plain name. */
  function Follow(fs: Files, p: Place): Place {
    if p in fs && fs[p].Link? then Parent(p) + [fs[p].target] else p
  }

  /** The emitted list has no repeats left to drop. */
  lemma {:induction false} FirstOfFirst(texts: seq<string>)
    ensures FirstOccurrences(FirstOccurrences(texts)) == FirstOccurrences(texts)
  {
    if texts != [] {
      var front, last := texts[..|texts| - 1], texts[|texts| - 1];
      FirstOfFirst(front);
      OccurrencesKept(front);
      var kept := FirstOccurrences(front);
      OccurrencePush(front, last);
      assert texts == front + [last];
      if last !in front {
        OccurrencePush(kept, last);
      } else {
        assert kept + [] == kept;
      }
    }
  }

  lemma OccurrencePush(texts: seq<string>, t: string)
    ensures FirstOccurrences(texts + [t]) == FirstOccurrences(texts) + if t in texts then [] else [t]
  {
    assert (texts + [t])[..|texts|] == texts;
  }

  /** Once the hook has run, the unversioned name leads to the mounted library:
      name.so -> soname -> library file. */
  lemma SoLinkReachesLibrary(linker: Linker, root: string, fs: Files, libs: seq<Library>, lib: Library, soname: string)
    requires Tree(fs) && linker.Offered(root, fs, libs, lib, soname)
    requires Executed(fs, root, FirstOccurrences(linker.AllLinks(libs))).Some?
    ensures var fs' := Executed(fs, root, FirstOccurrences(linker.AllLinks(libs))).value;
      var file, start := linker.PlaceOf(root, lib, Base(lib.path)), linker.PlaceOf(root, lib, GetSoLink(soname));
      && Follow(fs', Follow(fs', start)) == file
      && file in fs' && fs'[file] == File
  {
    hide Decode, Tree, GetSoLink, Base, Dir, Cuttable, FirstOccurrences, Linker.AllLinks, JoinPath, CleanAbs;
    hide Executed, FormatLink;
    var name, link, dir := Base(lib.path), GetSoLink(soname), linker.ContainerDir(lib);
    var texts := FirstOccurrences(linker.AllLinks(libs));
    FirstOfFirst(linker.AllLinks(libs));
    SoLinkProper(soname);
    EmittedDecodes(root, name, dir, soname);
    EmittedDecodes(root, soname, dir, link);
    var file := linker.PlaceOf(root, lib, name);
    HookKeeps(root, fs, texts, file);
    var text2 := FormatLink(soname, JoinPath(dir, link));
    assert text2 in linker.SoLink(lib, soname);
    linker.LinksEmitted(libs, lib, text2);
    HookMakes(root, fs, texts, text2, linker.PlaceOf(root, lib, link), soname);
    if soname != name {
      var text1 := FormatLink(name, JoinPath(dir, soname));
      assert text1 in linker.SonameLink(lib, soname);
      linker.LinksEmitted(libs, lib, text1);
      HookMakes(root, fs, texts, text1, linker.PlaceOf(root, lib, soname), name);
    }
  }
}
