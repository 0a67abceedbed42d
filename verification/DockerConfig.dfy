/** Docker's daemon.json: the features.cdi edit of internal/runtime/configure.go,
    its readiness check and the removal of the setting. */
module DockerConfig {
  import opened Strings
  import opened ConfigTree
  import opened ContainerdConfig

  /** features.cdi when `features` is a table and `cdi` a boolean. */
  function CdiFeature(config: Tree): Option<bool> {
    var features := TableOrNew(config, "features");
    if "cdi" in features && features["cdi"].Flag? then Some(features["cdi"].flag) else None
  }

  function DockerReady(config: Tree, version: Option<Version>): bool {
    var cdi := CdiFeature(config);
    if version.Some? && AtLeast(version.value, 28, 2) then cdi != Some(false)
    else cdi == Some(true)
  }

  /** daemon.json sets features.cdi to this value. */
  ghost predicate SetsCdi(config: Tree, value: Value) {
    && "features" in config && config["features"].Table?
    && "cdi" in config["features"].entries && config["features"].entries["cdi"] == value
  }

  /** A config, edited or not, is ready exactly if it enables CDI, or does not say
      and Docker is 28.2 or later. */
  lemma DockerReadyMeans(config: Tree, version: Option<Version>)
    ensures DockerReady(config, version) <==>
      || SetsCdi(config, Flag(true))
      || (!SetsCdi(config, Flag(false)) && version.Some?
          && (version.value.major > 28 || (version.value.major == 28 && version.value.minor >= 2)))
  {
  }

  function WithFeature(config: Tree): Tree {
    config["features" := Table(TableOrNew(config, "features")["cdi" := Flag(true)])]
  }

  /** A decoded daemon.json, edited in place. */
  class DaemonJson {
    var config: Tree

    constructor (config: Tree)
      ensures this.config == config
    {
      this.config := config;
    }

    method EnableCdi()
      modifies this
      ensures config == WithFeature(old(config))
    {
      var features := TableAt(config, "features");
      if features.None? {
        config := config["features" := Table(map[])];
      }
      var entries := config["features"].entries;
      config := config["features" := Table(entries["cdi" := Flag(true)])];
    }
  }

  /** An empty file is the empty object; a document that is not an object is an
      error of the decoder. */
  function ParseJson(json: Codec, content: string): Option<Tree> {
    if content == "" then Some(map[]) else json.parse(content)
  }

  function JsonEdited(json: Codec, content: string): Option<string> {
    match ParseJson(json, content)
    case None => None
    case Some(config) => json.render(WithFeature(config))
  }

  method ConfigureDaemonJson(json: Codec, content: string) returns (r: Option<string>)
    ensures r == JsonEdited(json, content)
  {
    var parsed := ParseJson(json, content);
    if parsed.None? {
      return None;
    }
    var doc := new DaemonJson(parsed.value);
    doc.EnableCdi();
    return json.render(doc.config);
  }

  function JsonReady(json: Codec, content: string, version: Option<Version>): Option<bool> {
    match ParseJson(json, content)
    case None => None
    case Some(config) => Some(DockerReady(config, version))
  }

  /** Readiness needs the setting for some version exactly when it is not on. */
  lemma ReadyForEveryVersion(config: Tree)
    ensures (forall v :: DockerReady(config, v)) <==> CdiFeature(config) == Some(true)
  {
    assert DockerReady(config, None) <==> CdiFeature(config) == Some(true);
  }

  /** What Configure writes reads back as ready for every version, and writing it
      again changes nothing. */
  lemma JsonEditConverges(json: Codec, content: string, text: string)
    requires json.Faithful() && JsonEdited(json, content) == Some(text)
    ensures forall v :: JsonReady(json, text, v) == Some(true)
    ensures JsonEdited(json, text) == Some(text)
  {
    hide Blank;
    var config := ParseJson(json, content).value;
    var edited := WithFeature(config);
    EmptyReparsed();
    assert ReparsedTree(config) == config;
    FeatureReparsed(config);
    assert edited != map[] by { assert "features" in edited; }
    assert text != "" by { assert !Blank(text); BlankEmpty(); }
    assert ParseJson(json, text) == Some(edited);
    var features := TableOrNew(edited, "features");
    assert features["cdi" := Flag(true)] == features;
    assert WithFeature(edited) == edited;
  }

  lemma BlankEmpty()
    ensures Blank("")
  {
  }

  lemma FeatureReparsed(config: Tree)
    requires ReparsedTree(config) == config
    ensures ReparsedTree(WithFeature(config)) == WithFeature(config)
  {
    ReparsedTable(config, "features");
    var features := TableOrNew(config, "features");
    ReparsedUpdate(features, "cdi", Flag(true));
    var features' := features["cdi" := Flag(true)];
    assert Reparsed(Table(features')) == Table(ReparsedTree(features'));
    ReparsedUpdate(config, "features", Table(features'));
  }

  /** Revert without a backup: drop the setting, the legacy key, and `features`
      if nothing is left in it. */
  function WithoutFeature(config: Tree): Tree {
    match TableAt(config, "features")
    case None => config
    case Some(features) =>
      var rest := features - {"cdi", "cdi-devices"};
      if rest == map[] then config - {"features"} else config["features" := Table(rest)]
  }

  /** Removing the setting undoes adding it on any config that had no CDI feature
      of its own and either had other features or none at all. */
  lemma RemoveUndoesEnable(config: Tree)
    ensures WithoutFeature(WithFeature(config)) == config
      <==> (match TableAt(config, "features")
            case None => "features" !in config
            case Some(features) => features != map[] && "cdi" !in features && "cdi-devices" !in features)
  {
    var features := TableOrNew(config, "features");
    var edited := features["cdi" := Flag(true)];
    var rest := edited - {"cdi", "cdi-devices"};
    assert TableAt(WithFeature(config), "features") == Some(edited);
    assert rest == features - {"cdi", "cdi-devices"};
    if "features" !in config {
      assert rest == map[];
    } else if TableAt(config, "features").Some? {
      if "cdi" !in features && "cdi-devices" !in features {
        assert rest == features;
      } else {
        assert rest != features;
      }
    }
  }
}
