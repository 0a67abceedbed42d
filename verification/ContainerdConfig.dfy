/** containerd's config.toml: the CDI edit of internal/runtime/configure.go and
    the readiness check of containerd_config.go that later gates restarts. */
module ContainerdConfig {
  import opened Strings
  import opened Paths
  import opened ConfigTree

  const CRI_PLUGIN := "io.containerd.grpc.v1.cri"
  const SPEC_DIR := "/var/run/cdi"
  const CONFIG_DIR := "/etc/cdi"

  /** A runtime version; None when the probe cannot tell. */
  datatype Version = Version(major: nat, minor: nat)

  predicate AtLeast(v: Version, major: int, minor: int) {
    if v.major != major then v.major > major else v.minor >= minor
  }

  predicate Covers(dirs: seq<string>, target: string) {
    exists d :: d in dirs && Clean(d) == target
  }

  method ContainsCleanPath(dirs: seq<string>, target: string) returns (found: bool)
    ensures found == Covers(dirs, target)
  {
    for i := 0 to |dirs|
      invariant forall j :: 0 <= j < i ==> Clean(dirs[j]) != target
    {
      if Clean(dirs[i]) == target {
        return true;
      }
    }
    return false;
  }

  /** The string entries of a list, in order. */
  function TextsOf(items: seq<Value>): seq<string> {
    if items == [] then []
    else (if items[0].Text? then [items[0].text] else []) + TextsOf(items[1..])
  }

  lemma {:induction false} TextsOfTexts(texts: seq<string>)
    ensures TextsOf(Texts(texts)) == texts
  {
    if texts != [] {
      assert Texts(texts)[1..] == Texts(texts[1..]);
      TextsOfTexts(texts[1..]);
    }
  }

  lemma {:induction false} TextsOfPush(items: seq<Value>, v: Value)
    ensures TextsOf(items + [v]) == TextsOf(items) + if v.Text? then [v.text] else []
  {
    if items != [] {
      assert (items + [v])[1..] == items[1..] + [v];
      TextsOfPush(items[1..], v);
    }
  }

  function CriTable(root: Tree): Option<Tree> {
    match TableAt(root, "plugins")
    case None => None
    case Some(plugins) => TableAt(plugins, CRI_PLUGIN)
  }

  /** cdi_spec_dirs as the check reads it; only a parsed list counts as present. */
  function SpecDirsIn(cri: Tree): Option<seq<string>> {
    if "cdi_spec_dirs" in cri && cri["cdi_spec_dirs"].Array? then Some(TextsOf(cri["cdi_spec_dirs"].items)) else None
  }

  function EnabledIn(cri: Tree): Option<bool> {
    if "enable_cdi" in cri && cri["enable_cdi"].Flag? then Some(cri["enable_cdi"].flag) else None
  }

  /** Whether containerd exposes CDI from the daemon's spec dir as it stands. */
  function Ready(root: Tree, version: Option<Version>): bool {
    var cri := match CriTable(root) case Some(t) => t case None => map[];
    match SpecDirsIn(cri)
    case Some(dirs) => Covers(dirs, SPEC_DIR) && Enabled(cri, version)
    case None => Enabled(cri, version)
  }

  function Enabled(cri: Tree, version: Option<Version>): bool {
    match EnabledIn(cri)
    case Some(flag) => flag
    case None => version.Some? && AtLeast(version.value, 2, 0)
  }

  /** The CRI plugin's table sets this key to this value. */
  ghost predicate Sets(root: Tree, key: string, value: Value) {
    && "plugins" in root && root["plugins"].Table?
    && var plugins := root["plugins"].entries;
       && "io.containerd.grpc.v1.cri" in plugins && plugins["io.containerd.grpc.v1.cri"].Table?
       && var cri := plugins["io.containerd.grpc.v1.cri"].entries;
          key in cri && cri[key] == value
  }

  lemma {:induction false} TextsOfMembers(items: seq<Value>)
    ensures forall d :: d in TextsOf(items) <==> Text(d) in items
  {
    if items != [] {
      TextsOfMembers(items[1..]);
      assert items == [items[0]] + items[1..];
    }
  }

  /** A config, edited or not, is ready exactly if any list of spec dirs in it has
      the daemon's, and CDI is enabled: by the config, or if it does not say, by
      default since containerd 2.0. */
  lemma ReadyMeans(root: Tree, version: Option<Version>)
    ensures Ready(root, version) <==>
      && (forall items :: Sets(root, "cdi_spec_dirs", Array(items)) ==>
            exists d :: Text(d) in items && Clean(d) == "/var/run/cdi")
      && (Sets(root, "enable_cdi", Flag(true))
          || (!Sets(root, "enable_cdi", Flag(false)) && version.Some? && version.value.major >= 2))
  {
    hide Clean, TextsOf;
    var cri := match CriTable(root) case Some(t) => t case None => map[];
    if "cdi_spec_dirs" in cri && cri["cdi_spec_dirs"].Array? {
      TextsOfMembers(cri["cdi_spec_dirs"].items);
      assert Sets(root, "cdi_spec_dirs", Array(cri["cdi_spec_dirs"].items));
    }
  }

  /** The CRI table with CDI switched on and the spec dir covered. */
  function EditedCri(cri: Tree): Tree {
    var on := cri["enable_cdi" := Flag(true)];
    match SpecDirsIn(on)
    case Some(dirs) => if Covers(dirs, SPEC_DIR) then on else on["cdi_spec_dirs" := TextList(dirs + [SPEC_DIR])]
    case None => on["cdi_spec_dirs" := TextList([CONFIG_DIR, SPEC_DIR])]
  }

  /** The root with this CRI table, its parent made if it is not a table. */
  function WithCri(root: Tree, cri: Tree): Tree {
    root["plugins" := Table(TableOrNew(root, "plugins")[CRI_PLUGIN := Table(cri)])]
  }

  function CriOrNew(root: Tree): Tree {
    TableOrNew(TableOrNew(root, "plugins"), CRI_PLUGIN)
  }

  /** The whole edit; a fresh (blank) file also gets the schema version. */
  function Edited(root: Tree, isNew: bool): Tree {
    var edited := WithCri(root, EditedCri(CriOrNew(root)));
    if isNew then edited["version" := Number(2)] else edited
  }

  lemma WithCriOverwrites(root: Tree, a: Tree, b: Tree)
    ensures CriTable(WithCri(root, a)) == Some(a) && CriOrNew(WithCri(root, a)) == a
    ensures WithCri(WithCri(root, a), b) == WithCri(root, b)
  {
    var plugins := TableOrNew(root, "plugins");
    assert plugins[CRI_PLUGIN := Table(a)][CRI_PLUGIN := Table(b)] == plugins[CRI_PLUGIN := Table(b)];
  }

  /** A parsed config held for editing in place. */
  class Config {
    var root: Tree

    constructor (root: Tree)
      ensures this.root == root
    {
      this.root := root;
    }

    /** criSection(true): the CRI table, made with its parents where missing. */
    method CriSection() returns (cri: Tree)
      modifies this
      ensures cri == CriOrNew(old(root)) && root == WithCri(old(root), cri)
    {
      var plugins := TableOrNew(root, "plugins");
      cri := TableOrNew(plugins, CRI_PLUGIN);
      plugins := plugins[CRI_PLUGIN := Table(cri)];
      root := root["plugins" := Table(plugins)];
    }

    /** Assignment to a key of the CRI table. */
    method SetCri(key: string, value: Value)
      requires CriTable(root).Some?
      modifies this
      ensures root == WithCri(old(root), CriTable(old(root)).value[key := value])
    {
      var plugins := root["plugins"].entries;
      var cri := plugins[CRI_PLUGIN].entries;
      root := root["plugins" := Table(plugins[CRI_PLUGIN := Table(cri[key := value])])];
    }

    method SpecDirs() returns (dirs: seq<string>, present: bool)
      ensures present == (CriTable(root).Some? && SpecDirsIn(CriTable(root).value).Some?)
      ensures dirs == if present then SpecDirsIn(CriTable(root).value).value else []
    {
      dirs, present := [], false;
      var cri := CriTable(root);
      if cri.None? || "cdi_spec_dirs" !in cri.value || !cri.value["cdi_spec_dirs"].Array? {
        return;
      }
      var raw := cri.value["cdi_spec_dirs"].items;
      for i := 0 to |raw|
        invariant dirs == TextsOf(raw[..i])
      {
        assert raw[..i + 1] == raw[..i] + [raw[i]];
        TextsOfPush(raw[..i], raw[i]);
        if raw[i].Text? {
          dirs := dirs + [raw[i].text];
        }
      }
      assert raw[..|raw|] == raw;
      present := true;
    }

    method Enable(isNew: bool)
      modifies this
      ensures root == Edited(old(root), isNew)
    {
      hide WithCri, CriOrNew, CriTable, Covers;
      ghost var before := root;
      var cri := CriSection();
      ghost var on := cri["enable_cdi" := Flag(true)];
      WithCriOverwrites(before, cri, on);
      SetCri("enable_cdi", Flag(true));
      WithCriOverwrites(before, on, EditedCri(cri));
      var dirs, present := SpecDirs();
      if present {
        var covered := ContainsCleanPath(dirs, SPEC_DIR);
        if !covered {
          SetCri("cdi_spec_dirs", TextList(dirs + [SPEC_DIR]));
        }
      } else {
        SetCri("cdi_spec_dirs", TextList([CONFIG_DIR, SPEC_DIR]));
      }
      if isNew {
        root := root["version" := Number(2)];
      }
    }
  }

  /** parseContainerdConfig: blank text is the empty config. */
  function Parse(toml: Codec, content: string): Option<Tree> {
    if Blank(content) then Some(map[]) else toml.parse(content)
  }

  /** The text the edit writes, None on a parse or render error. */
  function EditedText(toml: Codec, content: string): Option<string> {
    match Parse(toml, content)
    case None => None
    case Some(root) => toml.render(Edited(root, Blank(content)))
  }

  method EnableCdiInContainerdConfig(toml: Codec, content: string) returns (r: Option<string>)
    ensures r == EditedText(toml, content)
  {
    var parsed := Parse(toml, content);
    if parsed.None? {
      return None;
    }
    var cfg := new Config(parsed.value);
    cfg.Enable(Blank(content));
    return toml.render(cfg.root);
  }

  /** Readiness of a file's text; None when it cannot be parsed. */
  function TextReady(toml: Codec, content: string, version: Option<Version>): Option<bool> {
    match Parse(toml, content)
    case None => None
    case Some(root) => Some(Ready(root, version))
  }

  lemma SpecDirIsClean()
    ensures Clean(SPEC_DIR) == SPEC_DIR
  {
    var cs := ["var", "run", "cdi"];
    assert Join(cs[1..], '/') == "run/cdi" by {
      assert cs[1..][1..] == ["cdi"];
    }
    assert Abs(cs) == SPEC_DIR;
    ComponentsOfAbs(cs);
  }

  /** The spec dirs after the edit: the operator's strings in order, with the
      daemon's dir appended only if nothing covered it. */
  function DirsAfter(cri: Tree): seq<string> {
    match SpecDirsIn(cri)
    case Some(dirs) => if Covers(dirs, SPEC_DIR) then dirs else dirs + [SPEC_DIR]
    case None => [CONFIG_DIR, SPEC_DIR]
  }

  lemma DirsAfterCover(cri: Tree)
    ensures Covers(DirsAfter(cri), SPEC_DIR)
  {
    SpecDirIsClean();
    assert SPEC_DIR in [CONFIG_DIR, SPEC_DIR];
    match SpecDirsIn(cri)
    case Some(dirs) => assert SPEC_DIR in dirs + [SPEC_DIR];
    case None =>
  }

  /** The edited CRI table as the next run parses it. */
  lemma ReparsedCri(cri: Tree)
    requires ReparsedTree(cri) == cri
    ensures var next := ReparsedTree(EditedCri(cri));
      EnabledIn(next) == Some(true) && SpecDirsIn(next) == Some(DirsAfter(cri)) && EditedCri(next) == next
  {
    hide Covers, TextsOf, Texts;
    DirsAfterCover(cri);
    TextsOfTexts(DirsAfter(cri));
    var on := cri["enable_cdi" := Flag(true)];
    ReparsedUpdate(cri, "enable_cdi", Flag(true));
    assert SpecDirsIn(on) == SpecDirsIn(cri);
    ReparsedUpdate(on, "cdi_spec_dirs", TextList(DirsAfter(cri)));
    var next := ReparsedTree(EditedCri(cri));
    assert next["enable_cdi" := Flag(true)] == next;
  }

  lemma ReparsedCriOrNew(root: Tree)
    requires ReparsedTree(root) == root
    ensures ReparsedTree(CriOrNew(root)) == CriOrNew(root)
    ensures ReparsedTree(TableOrNew(root, "plugins")) == TableOrNew(root, "plugins")
  {
    ReparsedTable(root, "plugins");
    ReparsedTable(TableOrNew(root, "plugins"), CRI_PLUGIN);
  }

  lemma ReparsedTable(t: Tree, key: string)
    requires ReparsedTree(t) == t
    ensures ReparsedTree(TableOrNew(t, key)) == TableOrNew(t, key)
  {
    if key in t && t[key].Table? {
      assert Reparsed(t[key]) == t[key];
    }
  }

  /** What the next run parses is the same edit of the re-parsed CRI table. */
  lemma ReparsedEdit(root: Tree, isNew: bool)
    requires ReparsedTree(root) == root
    ensures var cri := ReparsedTree(EditedCri(CriOrNew(root)));
      ReparsedTree(Edited(root, isNew)) ==
        if isNew then WithCri(root, cri)["version" := Number(2)] else WithCri(root, cri)
  {
    hide EditedCri, CriOrNew;
    ReparsedCriOrNew(root);
    var edited := EditedCri(CriOrNew(root));
    var plugins := TableOrNew(root, "plugins");
    ReparsedUpdate(plugins, CRI_PLUGIN, Table(edited));
    var plugins' := plugins[CRI_PLUGIN := Table(edited)];
    assert Reparsed(Table(plugins')) == Table(ReparsedTree(plugins'));
    assert Reparsed(Table(edited)) == Table(ReparsedTree(edited));
    ReparsedUpdate(root, "plugins", Table(plugins'));
    ReparsedUpdate(WithCri(root, edited), "version", Number(2));
  }

  /** An edited root whose CRI table needs no further edit. */
  lemma EditedIsStable(root: Tree, cri: Tree, isNew: bool)
    requires EditedCri(cri) == cri && EnabledIn(cri) == Some(true)
    requires SpecDirsIn(cri).Some? && Covers(SpecDirsIn(cri).value, SPEC_DIR)
    ensures var next := if isNew then WithCri(root, cri)["version" := Number(2)] else WithCri(root, cri);
      CriTable(next) == Some(cri) && Edited(next, false) == next && forall v :: Ready(next, v)
  {
    hide EditedCri, Covers, EnabledIn, SpecDirsIn;
    var base := WithCri(root, cri);
    var next := if isNew then base["version" := Number(2)] else base;
    WithCriOverwrites(root, cri, cri);
    var plugins := TableOrNew(next, "plugins");
    assert plugins[CRI_PLUGIN := Table(cri)] == plugins;
    assert WithCri(next, cri) == next;
    forall v
      ensures Ready(next, v)
    {
      assert Enabled(cri, v);
    }
  }

  /** Whatever the config said, once edited and read back it is ready for every
      runtime version, and editing it again changes nothing. */
  lemma EditConverges(root: Tree, isNew: bool)
    requires ReparsedTree(root) == root
    ensures var next := ReparsedTree(Edited(root, isNew));
      (forall v :: Ready(next, v)) && Edited(next, false) == next
    ensures ReparsedTree(ReparsedTree(Edited(root, isNew))) == ReparsedTree(Edited(root, isNew))
    ensures CriTable(ReparsedTree(Edited(root, isNew))).Some?
    ensures SpecDirsIn(CriTable(ReparsedTree(Edited(root, isNew))).value) == Some(DirsAfter(CriOrNew(root)))
  {
    hide EditedCri, Covers, Edited, WithCri, CriTable, Ready, CriOrNew, ReparsedTree, EnabledIn, SpecDirsIn;
    ReparsedTreeTwice(Edited(root, isNew));
    ReparsedCriOrNew(root);
    ReparsedEdit(root, isNew);
    ReparsedCri(CriOrNew(root));
    DirsAfterCover(CriOrNew(root));
    EditedIsStable(root, ReparsedTree(EditedCri(CriOrNew(root))), isNew);
  }

  /** Paths the edit is entitled to change, with everything below them. */
  predicate EditedPath(path: seq<string>, isNew: bool) {
    || ["plugins", CRI_PLUGIN, "enable_cdi"] <= path
    || ["plugins", CRI_PLUGIN, "cdi_spec_dirs"] <= path
    || (isNew && ["version"] <= path)
  }

  predicate TableOrAbsent(t: Tree, key: string) {
    key in t ==> t[key].Table?
  }

  /** Every other setting, wherever it sits, keeps its value, and none is added. */
  ghost predicate OthersKept(before: Tree, after: Tree, isNew: bool) {
    forall path :: !EditedPath(path, isNew) ==> LeafAt(after, path) == LeafAt(before, path)
  }

  lemma LeafUnderTable(t: Tree, path: seq<string>)
    requires path != [] && TableOrAbsent(t, path[0])
    ensures LeafAt(t, path) == LeafAt(TableOrNew(t, path[0]), path[1..])
  {
    if path[0] !in t {
      assert LeafAt(map[], path[1..]) == None;
    }
  }

  lemma CriLeafKept(cri: Tree, path: seq<string>)
    requires !(["enable_cdi"] <= path) && !(["cdi_spec_dirs"] <= path)
    ensures LeafAt(EditedCri(cri), path) == LeafAt(cri, path)
  {
    if path != [] {
      assert path[0] != "enable_cdi" by {
        assert path[0] == "enable_cdi" ==> ["enable_cdi"] <= path;
      }
      assert path[0] != "cdi_spec_dirs" by {
        assert path[0] == "cdi_spec_dirs" ==> ["cdi_spec_dirs"] <= path;
      }
    }
  }

  /** Prefixing a path with table keys prefixes the edited ones. */
  lemma EditedPathBelow(path: seq<string>, key: string, isNew: bool)
    requires |path| >= 2 && path[0] == "plugins" && path[1] == CRI_PLUGIN
    ensures [key] <= path[2..] ==> ["plugins", CRI_PLUGIN, key] <= path
  {
  }

  lemma LeafKept(root: Tree, isNew: bool, path: seq<string>)
    requires TableOrAbsent(root, "plugins") && TableOrAbsent(TableOrNew(root, "plugins"), CRI_PLUGIN)
    requires !EditedPath(path, isNew)
    ensures LeafAt(Edited(root, isNew), path) == LeafAt(root, path)
  {
    hide EditedCri;
    if path == [] {
    } else if path[0] != "plugins" {
      assert path[0] == "version" ==> ["version"] <= path;
    } else {
      var edited := Edited(root, isNew);
      var plugins, plugins' := TableOrNew(root, "plugins"), TableOrNew(edited, "plugins");
      LeafUnderTable(root, path);
      LeafUnderTable(edited, path);
      var rest := path[1..];
      if rest != [] && rest[0] == CRI_PLUGIN {
        LeafUnderTable(plugins, rest);
        LeafUnderTable(plugins', rest);
        assert rest[1..] == path[2..];
        EditedPathBelow(path, "enable_cdi", isNew);
        EditedPathBelow(path, "cdi_spec_dirs", isNew);
        CriLeafKept(CriOrNew(root), path[2..]);
      }
    }
  }

  /** The edit changes nothing else exactly when `plugins` and the CRI entry are
      tables or absent; a value of another kind there is overwritten. */
  lemma EditIsMinimal(root: Tree, isNew: bool)
    ensures OthersKept(root, Edited(root, isNew), isNew)
      <==> TableOrAbsent(root, "plugins") && TableOrAbsent(TableOrNew(root, "plugins"), CRI_PLUGIN)
  {
    hide Edited, EditedPath;
    if TableOrAbsent(root, "plugins") && TableOrAbsent(TableOrNew(root, "plugins"), CRI_PLUGIN) {
      forall path | !EditedPath(path, isNew)
        ensures LeafAt(Edited(root, isNew), path) == LeafAt(root, path)
      {
        LeafKept(root, isNew, path);
      }
    } else {
      var lost := if !TableOrAbsent(root, "plugins") then ["plugins"] else ["plugins", CRI_PLUGIN];
      ValueLost(root, isNew, lost);
    }
  }

  lemma ValueLost(root: Tree, isNew: bool, lost: seq<string>)
    requires lost == if !TableOrAbsent(root, "plugins") then ["plugins"] else ["plugins", CRI_PLUGIN]
    requires !(TableOrAbsent(root, "plugins") && TableOrAbsent(TableOrNew(root, "plugins"), CRI_PLUGIN))
    ensures !EditedPath(lost, isNew) && LeafAt(Edited(root, isNew), lost) != LeafAt(root, lost)
  {
    hide EditedCri;
    if TableOrAbsent(root, "plugins") {
      var plugins := root["plugins"].entries;
      assert lost[1..] == [CRI_PLUGIN];
      assert LeafAt(root, lost) == LeafAt(plugins, [CRI_PLUGIN]) == Some(plugins[CRI_PLUGIN]);
      var plugins' := Edited(root, isNew)["plugins"].entries;
      assert LeafAt(Edited(root, isNew), lost) == LeafAt(plugins', [CRI_PLUGIN]);
      assert LeafAt(plugins', [CRI_PLUGIN]) == LeafAt(plugins'[CRI_PLUGIN].entries, []);
    } else {
      assert LeafAt(Edited(root, isNew), lost) == LeafAt(Edited(root, isNew)["plugins"].entries, []);
    }
  }

  /** The same at the level of file texts: what the edit writes is judged ready
      by the check for every version, is a fixed point of the edit, and was a
      faithful edit of what the file held. */
  lemma EditedTextConverges(toml: Codec, content: string, text: string)
    requires toml.Faithful() && EditedText(toml, content) == Some(text)
    ensures forall v :: TextReady(toml, text, v) == Some(true)
    ensures EditedText(toml, text) == Some(text)
    ensures Parse(toml, text).Some? && CriTable(Parse(toml, text).value).Some?
    ensures SpecDirsIn(CriTable(Parse(toml, text).value).value) == Some(DirsAfter(CriOrNew(Parse(toml, content).value)))
  {
    hide Edited, Ready, Blank, CriOrNew, CriTable;
    var root := Parse(toml, content).value;
    EmptyReparsed();
    EditConverges(root, Blank(content));
    var edited := Edited(root, Blank(content));
    assert edited != map[] by { EditedNotEmpty(root, Blank(content)); }
    assert Parse(toml, text) == Some(ReparsedTree(edited));
  }

  lemma EmptyReparsed()
    ensures ReparsedTree(map[]) == map[]
  {
  }

  lemma EditedNotEmpty(root: Tree, isNew: bool)
    ensures Edited(root, isNew) != map[]
  {
    assert "plugins" in Edited(root, isNew);
  }
}
