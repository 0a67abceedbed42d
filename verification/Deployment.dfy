/** Deploy, shutdown and kill cycles of the daemon on one node: `setup` of
    cmd/rbln-ctk-daemon/root.go with the configurators and reverters of
    internal/runtime/configure.go, for containerd and Docker. */
module Deployment {
  import opened Strings
  import opened ConfigTree
  import opened ContainerdConfig
  import opened DockerConfig

  /** The runtime being configured and the library that parses its file. */
  datatype Runtime = Containerd(codec: Codec) | Docker(codec: Codec)
  {
    /** What Configure writes over a file (None: no file); None if it fails. */
    function Configured(file: Option<string>): Option<string> {
      var content := if file.Some? then file.value else "";
      match this
      case Containerd(toml) => EditedText(toml, content)
      case Docker(json) => JsonEdited(json, content)
    }

    /** What CDIReady answers; None is its error. */
    function CdiReady(file: Option<string>, version: Option<Version>): Option<bool> {
      var content := if file.Some? then file.value else "";
      match this
      case Containerd(toml) => TextReady(toml, content, version)
      case Docker(json) => JsonReady(json, content, version)
    }

    /** Revert without a backup, on an existing file. */
    function Stripped(content: string): Option<string> {
      match this
      case Containerd(_) => Some(WithoutCdiLines(content))
      case Docker(json) =>
        match json.parse(content)
        case None => None
        case Some(config) => json.render(WithoutFeature(config))
    }

    /** A configured file is ready whatever version the next probe reports. */
    lemma ConfiguredIsReady(file: Option<string>, text: string)
      requires codec.Faithful() && Configured(file) == Some(text)
      ensures forall v :: CdiReady(Some(text), v) == Some(true)
    {
      var content := if file.Some? then file.value else "";
      match this
      case Containerd(toml) => EditedTextConverges(toml, content, text);
      case Docker(json) => JsonEditConverges(json, content, text);
    }
  }

  function DropSpace(s: string): string {
    if s != "" && IsSpace(s[0]) then DropSpace(s[1..]) else s
  }

  /** disableCDIInContainerdConfig: drop the lines that start with a CDI key. */
  function WithoutCdiLines(content: string): string {
    Join(KeptLines(Split(content, '\n')), '\n')
  }

  function KeptLines(lines: seq<string>): seq<string> {
    if lines == [] then []
    else
      var trimmed := DropSpace(lines[0]);
      (if HasPrefix(trimmed, "enable_cdi") || HasPrefix(trimmed, "cdi_spec_dirs") then [] else [lines[0]])
      + KeptLines(lines[1..])
  }

  /** A line whose text, after white space, starts with a CDI key. */
  ghost predicate CdiLine(line: string) {
    exists i :: 0 <= i <= |line| && (forall j :: 0 <= j < i ==> IsSpace(line[j]))
      && (HasPrefix(line[i..], "enable_cdi") || HasPrefix(line[i..], "cdi_spec_dirs"))
  }

  lemma {:induction false} DropSpaceMeans(s: string)
    ensures exists i :: 0 <= i <= |s| && DropSpace(s) == s[i..] && (forall j :: 0 <= j < i ==> IsSpace(s[j]))
                     && (i < |s| ==> !IsSpace(s[i]))
  {
    hide IsSpace;
    if s != "" && IsSpace(s[0]) {
      DropSpaceMeans(s[1..]);
      var i :| 0 <= i <= |s[1..]| && DropSpace(s[1..]) == s[1..][i..]
        && (forall j :: 0 <= j < i ==> IsSpace(s[1..][j])) && (i < |s[1..]| ==> !IsSpace(s[1..][i]));
      assert s[1..][i..] == s[i + 1..];
      forall j | 0 <= j < i + 1
        ensures IsSpace(s[j])
      {
        assert j > 0 ==> s[j] == s[1..][j - 1];
      }
      assert i < |s[1..]| ==> s[1..][i] == s[i + 1];
    } else {
      assert s[0..] == s;
    }
  }

  /** Exactly the other lines are kept, each line by itself and in order. */
  lemma {:induction false} KeptLinesMeans(a: seq<string>, line: string, b: seq<string>)
    ensures KeptLines([]) == []
    ensures KeptLines([line]) == if CdiLine(line) then [] else [line]
    ensures KeptLines(a + b) == KeptLines(a) + KeptLines(b)
  {
    hide HasPrefix, IsSpace, DropSpace;
    LineKept(line);
    assert [line][1..] == [];
    if a == [] {
      assert a + b == b;
    } else {
      assert (a + b)[1..] == a[1..] + b && (a + b)[0] == a[0];
      KeptLinesMeans(a[1..], line, b);
    }
  }

  lemma LineKept(line: string)
    ensures CdiLine(line) <==> HasPrefix(DropSpace(line), "enable_cdi") || HasPrefix(DropSpace(line), "cdi_spec_dirs")
  {
    hide DropSpace;
    DropSpaceMeans(line);
    var k :| 0 <= k <= |line| && DropSpace(line) == line[k..] && (forall j :: 0 <= j < k ==> IsSpace(line[j]))
      && (k < |line| ==> !IsSpace(line[k]));
    assert !IsSpace('e') && !IsSpace('c');
    forall i | 0 <= i <= |line| && (forall j :: 0 <= j < i ==> IsSpace(line[j]))
        && (HasPrefix(line[i..], "enable_cdi") || HasPrefix(line[i..], "cdi_spec_dirs"))
      ensures i == k
    {
      assert line[i] == line[i..][0];
    }
  }

  /** The config file and its backup, None where there is no such file. */
  datatype Disk = Disk(config: Option<string>, backup: Option<string>)

  /** Where a deploy stands; Idle is between deploys or serving after setup. */
  datatype Pc = Idle | Generating | Checking | BackingUp | Rewriting | Restarting

  datatype Node = Node(disk: Disk, pc: Pc, specWritten: bool, rewrites: nat, restarts: nat)

  /** One atomic step. `version` is what the probe answers this time; a step that
      writes may fail without effect; Killed strikes at any point. */
  datatype Label =
    | Start | Generate(ok: bool) | Check(version: Option<Version>) | Backup(ok: bool)
    | Rewrite(ok: bool) | Restart(attempted: bool) | Shutdown | Killed

  predicate Enabled(n: Node, l: Label) {
    match l
    case Start => n.pc == Idle
    case Generate(_) => n.pc == Generating
    case Check(_) => n.pc == Checking
    case Backup(_) => n.pc == BackingUp
    case Rewrite(_) => n.pc == Rewriting
    case Restart(_) => n.pc == Restarting
    case Shutdown => n.pc == Idle
    case Killed => true
  }

  function Apply(rt: Runtime, n: Node, l: Label): Node
    requires Enabled(n, l)
  {
    match l
    case Start => n.(pc := Generating)
    case Generate(ok) => if ok then n.(pc := Checking, specWritten := true) else n.(pc := Idle)
    case Check(version) =>
      n.(pc := if rt.CdiReady(n.disk.config, version) == Some(true) then Idle else BackingUp)
    case Backup(ok) =>
      if !ok then n.(pc := Idle)
      else if n.disk.config.None? then n.(pc := Rewriting)
      else n.(pc := Rewriting, disk := n.disk.(backup := n.disk.config))
    case Rewrite(ok) =>
      (match rt.Configured(n.disk.config)
       case None => n.(pc := Idle)
       case Some(text) =>
         if ok then n.(pc := Restarting, disk := n.disk.(config := Some(text)), rewrites := n.rewrites + 1)
         else n.(pc := Idle))
    case Restart(attempted) => n.(pc := Idle, restarts := n.restarts + if attempted then 1 else 0)
    case Shutdown => n.(specWritten := false)
    case Killed => n.(pc := Idle)
  }

  /** A deploy goes through its steps one at a time; a shutdown happens between
      deploys, a kill at any time, and neither touches the disk. */
  lemma StepOrder(rt: Runtime, n: Node, l: Label)
    ensures Enabled(n, l) <==>
      (match n.pc
       case Idle => l == Start || l == Shutdown || l == Killed
       case Generating => l.Generate? || l == Killed
       case Checking => l.Check? || l == Killed
       case BackingUp => l.Backup? || l == Killed
       case Rewriting => l.Rewrite? || l == Killed
       case Restarting => l.Restart? || l == Killed)
    ensures Apply(rt, n, Killed) == n.(pc := Idle)
  {
  }

  /** A step that fails ends the deploy and changes nothing on disk. */
  lemma FailedStep(rt: Runtime, n: Node, l: Label)
    requires Enabled(n, l) && (l == Generate(false) || l == Backup(false) || l == Rewrite(false))
    ensures Apply(rt, n, l) == n.(pc := Idle)
  {
    hide Runtime.Configured;
  }

  function Steps(rt: Runtime, n: Node, labels: seq<Label>): Option<Node>
    decreases labels
  {
    if labels == [] then Some(n)
    else if Enabled(n, labels[0]) then Steps(rt, Apply(rt, n, labels[0]), labels[1..])
    else None
  }

  function Fresh(disk: Disk): Node {
    Node(disk, Idle, false, 0, 0)
  }

  /** Before the first rewrite the config is untouched; after it the config is
      ready for good, the backup holds the original, and at most one restart has
      been or will be attempted. */
  ghost predicate Inv(rt: Runtime, original: Option<string>, n: Node) {
    if n.rewrites == 0 then
      && n.disk.config == original && n.restarts == 0 && n.pc != Restarting
      && (n.pc == Rewriting && original.Some? ==> n.disk.backup == original)
    else
      && n.rewrites == 1
      && n.disk.config.Some? && (forall v :: rt.CdiReady(n.disk.config, v) == Some(true))
      && (original.Some? ==> n.disk.backup == original)
      && n.pc != BackingUp && n.pc != Rewriting
      && n.restarts + (if n.pc == Restarting then 1 else 0) <= 1
  }

  lemma StepKeepsInv(rt: Runtime, original: Option<string>, n: Node, l: Label)
    requires rt.codec.Faithful() && Inv(rt, original, n) && Enabled(n, l)
    ensures Inv(rt, original, Apply(rt, n, l))
  {
    if l.Rewrite? && l.ok && rt.Configured(n.disk.config).Some? {
      rt.ConfiguredIsReady(n.disk.config, rt.Configured(n.disk.config).value);
    }
  }

  lemma {:induction false} StepsKeepInv(rt: Runtime, original: Option<string>, n: Node, labels: seq<Label>)
    requires rt.codec.Faithful() && Inv(rt, original, n) && Steps(rt, n, labels).Some?
    ensures Inv(rt, original, Steps(rt, n, labels).value)
    decreases labels
  {
    hide Inv, Enabled, Apply;
    if labels != [] {
      StepKeepsInv(rt, original, n, labels[0]);
      StepsKeepInv(rt, original, Apply(rt, n, labels[0]), labels[1..]);
    }
  }

  /** Over any sequence of deploys, graceful shutdowns and kills at any point,
      whatever the version probe answers and whichever writes fail: the runtime
      restart is attempted at most once, and only after a rewrite. */
  lemma RestartedAtMostOnce(rt: Runtime, disk: Disk, labels: seq<Label>, n: Node)
    requires rt.codec.Faithful() && Steps(rt, Fresh(disk), labels) == Some(n)
    ensures n.restarts <= n.rewrites <= 1
  {
    StepsKeepInv(rt, disk.config, Fresh(disk), labels);
  }

  /** A node whose config is ready for every version is never touched at all. */
  lemma {:induction false} ReadyNodeUntouched(rt: Runtime, n: Node, labels: seq<Label>)
    requires forall v :: rt.CdiReady(n.disk.config, v) == Some(true)
    requires n.pc == Idle || n.pc == Generating || n.pc == Checking
    requires Steps(rt, n, labels).Some?
    ensures var m := Steps(rt, n, labels).value;
      m.disk == n.disk && m.restarts == n.restarts && m.rewrites == n.rewrites
    ensures !RestartFollowsRewrite(labels)
    decreases labels
  {
    hide Runtime.CdiReady, Runtime.Configured;
    if labels != [] {
      ReadyNodeUntouched(rt, Apply(rt, n, labels[0]), labels[1..]);
      FollowsTail(labels);
    }
  }

  /** Somewhere a rewrite is directly followed by an attempted restart. */
  ghost predicate RestartFollowsRewrite(labels: seq<Label>) {
    exists k :: FollowsAt(labels, k)
  }

  ghost predicate FollowsAt(labels: seq<Label>, k: int) {
    0 <= k < |labels| - 1 && labels[k] == Rewrite(true) && labels[k + 1] == Restart(true)
  }

  lemma FollowsTail(labels: seq<Label>)
    requires labels != []
    ensures RestartFollowsRewrite(labels) <==> FollowsAt(labels, 0) || RestartFollowsRewrite(labels[1..])
  {
    if k :| FollowsAt(labels, k) && k > 0 {
      assert FollowsAt(labels[1..], k - 1);
    }
    if k :| FollowsAt(labels[1..], k) {
      assert FollowsAt(labels, k + 1);
    }
  }

  /** Until some deploy has rewritten the config, only a rewrite can lead to the
      restart, in the very next step. */
  lemma {:induction false} RestartsOf(rt: Runtime, original: Option<string>, n: Node, labels: seq<Label>)
    requires rt.codec.Faithful() && Inv(rt, original, n) && n.rewrites == 0
    requires Steps(rt, n, labels).Some?
    ensures Steps(rt, n, labels).value.restarts == if RestartFollowsRewrite(labels) then 1 else 0
    decreases labels
  {
    hide Runtime.CdiReady, Runtime.Configured, RestartFollowsRewrite, Codec.Faithful;
    if labels == [] {
      NothingFollows();
    } else {
      var next, rest := Apply(rt, n, labels[0]), labels[1..];
      StepKeepsInv(rt, original, n, labels[0]);
      FollowsTail(labels);
      if next.rewrites == 0 {
        RestartsOf(rt, original, next, rest);
      } else if rest == [] {
        NothingFollows();
      } else {
        StepKeepsInv(rt, original, next, rest[0]);
        ReadyNodeUntouched(rt, Apply(rt, next, rest[0]), rest[1..]);
        FollowsTail(rest);
      }
    }
  }

  lemma NothingFollows()
    ensures !RestartFollowsRewrite([])
  {
  }

  /** Over any sequence of deploys, shutdowns and kills the runtime is restarted
      exactly once if a rewrite is directly followed by the restart, and never if
      it is not. */
  lemma RestartedExactly(rt: Runtime, disk: Disk, labels: seq<Label>, n: Node)
    requires rt.codec.Faithful() && Steps(rt, Fresh(disk), labels) == Some(n)
    ensures n.restarts == if RestartFollowsRewrite(labels) then 1 else 0
  {
    RestartsOf(rt, disk.config, Fresh(disk), labels);
  }

  /** A deploy up to its rewrite, on a disk that is not ready. */
  function UntilRewrite(version: Option<Version>): seq<Label> {
    [Start, Generate(true), Check(version), Backup(true), Rewrite(true)]
  }

  lemma DeployUntilRewrite(rt: Runtime, disk: Disk, version: Option<Version>)
    requires rt.CdiReady(disk.config, version) != Some(true) && rt.Configured(disk.config).Some?
    ensures Steps(rt, Fresh(disk), UntilRewrite(version)) ==
      Some(Node(Disk(rt.Configured(disk.config), if disk.config.Some? then disk.config else disk.backup),
                Restarting, true, 1, 0))
  {
    hide Runtime.CdiReady, Runtime.Configured, Steps;
    var n0 := Fresh(disk);
    var n1 := Apply(rt, n0, Start);
    var n2 := Apply(rt, n1, Generate(true));
    var n3 := Apply(rt, n2, Check(version));
    var n4 := Apply(rt, n3, Backup(true));
    StepsOne(rt, n0, Start);
    StepsPush(rt, n0, [Start], n1, Generate(true));
    StepsPush(rt, n0, [Start] + [Generate(true)], n2, Check(version));
    StepsPush(rt, n0, [Start] + [Generate(true)] + [Check(version)], n3, Backup(true));
    StepsPush(rt, n0, [Start] + [Generate(true)] + [Check(version)] + [Backup(true)], n4, Rewrite(true));
    assert UntilRewrite(version) == [Start] + [Generate(true)] + [Check(version)] + [Backup(true)] + [Rewrite(true)];
  }

  /** A deploy on a node that is not ready restarts the runtime once if nothing
      fails, and if it is killed before the restart no run ever restarts it. */
  lemma DeployRestartsUnlessKilled(rt: Runtime, disk: Disk, version: Option<Version>)
    requires rt.codec.Faithful()
    requires rt.CdiReady(disk.config, version) != Some(true) && rt.Configured(disk.config).Some?
    ensures var n := Steps(rt, Fresh(disk), UntilRewrite(version) + [Restart(true)]);
      n.Some? && n.value.pc == Idle && n.value.rewrites == 1 && n.value.restarts == 1
    ensures var n := Steps(rt, Fresh(disk), UntilRewrite(version) + [Killed]);
      && n.Some? && n.value.pc == Idle && n.value.rewrites == 1
      && forall more :: Steps(rt, n.value, more).Some? ==> Steps(rt, n.value, more).value.restarts == 0
  {
    hide Runtime.CdiReady, Runtime.Configured, Steps, Codec.Faithful;
    DeployUntilRewrite(rt, disk, version);
    var n := Steps(rt, Fresh(disk), UntilRewrite(version)).value;
    StepsPush(rt, Fresh(disk), UntilRewrite(version), n, Restart(true));
    StepsPush(rt, Fresh(disk), UntilRewrite(version), n, Killed);
    var killed := Apply(rt, n, Killed);
    forall more | Steps(rt, killed, more).Some?
      ensures Steps(rt, killed, more).value.restarts == 0
    {
      MissedRestartStaysMissed(rt, disk, UntilRewrite(version) + [Killed], killed, more);
    }
  }

  /** A kill between the rewrite and the restart is never made up for: later
      deploys find the config ready and skip the restart that never happened. */
  lemma MissedRestartStaysMissed(rt: Runtime, disk: Disk, labels: seq<Label>, n: Node, more: seq<Label>)
    requires rt.codec.Faithful() && Steps(rt, Fresh(disk), labels) == Some(n)
    requires n.pc == Idle && n.rewrites == 1 && n.restarts == 0
    requires Steps(rt, n, more).Some?
    ensures Steps(rt, n, more).value.restarts == 0
  {
    StepsKeepInv(rt, disk.config, Fresh(disk), labels);
    ReadyNodeUntouched(rt, n, more);
  }

  /** CDI is on by default since containerd 2.0 and Docker 28.2. */
  ghost predicate OnByDefault(rt: Runtime, version: Option<Version>) {
    version.Some? &&
    match rt
    case Containerd(_) => version.value.major >= 2
    case Docker(_) => version.value.major > 28 || (version.value.major == 28 && version.value.minor >= 2)
  }

  /** What Configure writes: the edited tree, whatever was there, or nothing if the
      file cannot be parsed or the tree not written. */
  lemma ConfiguredMeans(rt: Runtime, file: Option<string>)
    ensures var content := if file.Some? then file.value else "";
      var isNew := if rt.Containerd? then Blank(content) else content == "";
      var parsed := if isNew then Some(map[]) else rt.codec.parse(content);
      rt.Configured(file) ==
        if parsed.None? then None
        else if rt.Containerd? then rt.codec.render(Edited(parsed.value, isNew))
        else rt.codec.render(WithFeature(parsed.value))
  {
    hide Edited, WithFeature, Blank;
  }

  lemma NoFileReady(rt: Runtime, version: Option<Version>)
    ensures rt.CdiReady(None, version) == Some(OnByDefault(rt, version))
  {
    match rt
    case Containerd(toml) =>
      BlankEmpty();
      ReadyMeans(map[], version);
    case Docker(json) =>
      DockerReadyMeans(map[], version);
  }

  /** On a node without a config file, an undisturbed deploy leaves everything alone
      if CDI is on by default; if it is not, or the version is not known, it writes a
      config and restarts the runtime. */
  lemma FirstDeploy(rt: Runtime, backup: Option<string>, version: Option<Version>)
    requires rt.codec.Faithful()
    requires rt.codec.render(if rt.Containerd? then Edited(map[], true) else WithFeature(map[])).Some?
    ensures rt.Configured(None).Some?
    ensures var disk := Disk(None, backup);
      if OnByDefault(rt, version) then
        Steps(rt, Fresh(disk), [Start, Generate(true), Check(version)]) == Some(Node(disk, Idle, true, 0, 0))
      else
        Steps(rt, Fresh(disk), UntilRewrite(version) + [Restart(true)])
          == Some(Node(Disk(rt.Configured(None), backup), Idle, true, 1, 1))
  {
    hide Runtime.CdiReady, Runtime.Configured, Steps, Codec.Faithful, OnByDefault, Edited, WithFeature;
    var disk := Disk(None, backup);
    BlankEmpty();
    ConfiguredMeans(rt, None);
    NoFileReady(rt, version);
    if OnByDefault(rt, version) {
      var n1 := Apply(rt, Fresh(disk), Start);
      var n2 := Apply(rt, n1, Generate(true));
      StepsOne(rt, Fresh(disk), Start);
      StepsPush(rt, Fresh(disk), [Start], n1, Generate(true));
      StepsPush(rt, Fresh(disk), [Start] + [Generate(true)], n2, Check(version));
      assert [Start] + [Generate(true)] + [Check(version)] == [Start, Generate(true), Check(version)];
    } else {
      DeployUntilRewrite(rt, disk, version);
      var n := Steps(rt, Fresh(disk), UntilRewrite(version)).value;
      StepsPush(rt, Fresh(disk), UntilRewrite(version), n, Restart(true));
    }
  }

  /** The last step that wrote or removed the specs wrote them. */
  predicate SpecAfter(labels: seq<Label>) {
    labels != [] &&
    match labels[|labels| - 1]
    case Generate(true) => true
    case Shutdown => false
    case _ => SpecAfter(labels[..|labels| - 1])
  }

  lemma {:induction false} StepsFront(rt: Runtime, n: Node, labels: seq<Label>)
    requires labels != [] && Steps(rt, n, labels).Some?
    ensures var front := Steps(rt, n, labels[..|labels| - 1]);
      && front.Some? && Enabled(front.value, labels[|labels| - 1])
      && Steps(rt, n, labels) == Some(Apply(rt, front.value, labels[|labels| - 1]))
    decreases labels
  {
    hide Enabled, Apply;
    if |labels| == 1 {
      assert labels[..0] == [] && labels[1..] == [];
      StepsNone(rt, n);
      StepsNone(rt, Apply(rt, n, labels[0]));
    } else {
      StepsFront(rt, Apply(rt, n, labels[0]), labels[1..]);
      assert labels[1..][..|labels| - 2] == labels[..|labels| - 1][1..];
    }
  }

  lemma StepsNone(rt: Runtime, n: Node)
    ensures Steps(rt, n, []) == Some(n)
  {
  }

  /** After any run the specs are there exactly if the last generation or graceful
      shutdown was a generation, so a kill leaves them behind; and from the readiness
      check to the restart they always are. */
  lemma {:induction false} SpecsInPlace(rt: Runtime, disk: Disk, labels: seq<Label>, n: Node)
    requires Steps(rt, Fresh(disk), labels) == Some(n)
    ensures n.specWritten == SpecAfter(labels)
    ensures n.pc != Idle && n.pc != Generating ==> n.specWritten
    decreases labels
  {
    hide Runtime.CdiReady, Runtime.Configured;
    if labels == [] {
      StepsNone(rt, Fresh(disk));
    } else {
      hide Steps;
      StepsFront(rt, Fresh(disk), labels);
      SpecsInPlace(rt, disk, labels[..|labels| - 1], Steps(rt, Fresh(disk), labels[..|labels| - 1]).value);
    }
  }

  /** The steps of one deploy, as these outcomes determine them. */
  function SetupLabels(rt: Runtime, config: Option<string>, generated: bool, version: Option<Version>,
                       backupOk: bool, writeOk: bool, attempted: bool): seq<Label>
  {
    [Start, Generate(generated)] +
    if !generated then []
    else
      [Check(version)] +
      if rt.CdiReady(config, version) == Some(true) then []
      else
        [Backup(backupOk)] +
        if !backupOk then []
        else [Rewrite(writeOk)] + if rt.Configured(config).None? || !writeOk then [] else [Restart(attempted)]
  }

  /** The same list, as it grows. */
  lemma SetupLabelsGrow(rt: Runtime, config: Option<string>, generated: bool, version: Option<Version>,
                        backupOk: bool, writeOk: bool, attempted: bool)
    ensures var labels := SetupLabels(rt, config, generated, version, backupOk, writeOk, attempted);
      var checked := [Start, Generate(generated)] + [Check(version)];
      var backedUp := checked + [Backup(backupOk)];
      labels ==
        if !generated then [Start, Generate(generated)]
        else if rt.CdiReady(config, version) == Some(true) then checked
        else if !backupOk then backedUp
        else if rt.Configured(config).None? || !writeOk then backedUp + [Rewrite(writeOk)]
        else backedUp + [Rewrite(writeOk)] + [Restart(attempted)]
  {
    hide Runtime.CdiReady, Runtime.Configured;
  }

  /** Revert: restore the backup if there is one (`removed`: deleting it worked),
      else strip the CDI settings from the config. */
  function Reverted(rt: Runtime, disk: Disk, removed: bool): Disk {
    if disk.backup.Some? then Disk(disk.backup, if removed then None else disk.backup)
    else
      match disk.config
      case None => disk
      case Some(content) =>
        match rt.Stripped(content)
        case None => disk
        case Some(text) => disk.(config := Some(text))
  }

  /** Without a backup, Revert drops the CDI lines from a containerd config, and the
      CDI features from a Docker config if it can be read and written. */
  lemma RevertWithoutBackup(rt: Runtime, content: string, removed: bool)
    ensures Reverted(rt, Disk(None, None), removed) == Disk(None, None)
    ensures var left := Reverted(rt, Disk(Some(content), None), removed);
      var parsed := rt.codec.parse(content);
      var failed := rt.Docker? && (parsed.None? || rt.codec.render(WithoutFeature(parsed.value)).None?);
      && left.backup == None
      && (rt.Containerd? ==> left.config == Some(Join(KeptLines(Split(content, '\n')), '\n')))
      && (failed ==> left.config == Some(content))
      && (rt.Docker? && !failed ==> left.config == rt.codec.render(WithoutFeature(parsed.value)))
  {
    hide KeptLines, WithoutFeature;
  }

  /** After any run in which some deploy rewrote the config, one Revert brings the
      original bytes back exactly when the config file existed to begin with. */
  lemma RevertRestoresOriginal(rt: Runtime, disk: Disk, labels: seq<Label>, n: Node, removed: bool)
    requires rt.codec.Faithful() && Steps(rt, Fresh(disk), labels) == Some(n) && n.rewrites > 0
    ensures Reverted(rt, n.disk, removed).config == disk.config <==> disk.config.Some?
    ensures disk.config.Some? && removed ==> Reverted(rt, n.disk, removed).backup == None
  {
    StepsKeepInv(rt, disk.config, Fresh(disk), labels);
  }

  /** The node as the running daemon changes it, step by step. */
  class Host {
    var config: Option<string>
    var backup: Option<string>
    var specWritten: bool
    var rewrites: nat
    var restarts: nat

    constructor (disk: Disk)
      ensures State() == Fresh(disk)
    {
      config, backup := disk.config, disk.backup;
      specWritten, rewrites, restarts := false, 0, 0;
    }

    /** The host between deploys. */
    function State(): Node
      reads this
    {
      Node(Disk(config, backup), Idle, specWritten, rewrites, restarts)
    }

    /** Configure: back up, then rewrite; either write may fail. */
    method Configure(rt: Runtime, backupOk: bool, writeOk: bool) returns (ok: bool)
      modifies this
      ensures var node := old(State()).(pc := BackingUp);
        var saved := Apply(rt, node, Backup(backupOk));
        var done := if saved.pc == Rewriting then Apply(rt, saved, Rewrite(writeOk)) else saved;
        ok == (done.pc == Restarting) && State() == done.(pc := Idle)
    {
      hide Runtime.Configured;
      if !backupOk {
        return false;
      }
      if config.Some? {
        backup := config;
      }
      var text := rt.Configured(config);
      if text.None? || !writeOk {
        return false;
      }
      config := text;
      rewrites := rewrites + 1;
      return true;
    }

    /** setup, run to its end: it is one run of the step protocol. */
    method Setup(rt: Runtime, generated: bool, version: Option<Version>, backupOk: bool, writeOk: bool, attempted: bool)
      returns (labels: seq<Label>)
      modifies this
      ensures labels == SetupLabels(rt, old(config), generated, version, backupOk, writeOk, attempted)
      ensures Steps(rt, old(State()), labels) == Some(State())
    {
      hide Runtime.CdiReady, Runtime.Configured, Steps, SetupLabels;
      SetupLabelsGrow(rt, config, generated, version, backupOk, writeOk, attempted);
      ghost var n0 := State();
      ghost var n1 := Apply(rt, n0, Start);
      ghost var n2 := Apply(rt, n1, Generate(generated));
      StepsOne(rt, n0, Start);
      StepsPush(rt, n0, [Start], n1, Generate(generated));
      labels := [Start, Generate(generated)];
      assert [Start] + [Generate(generated)] == labels;
      if !generated {
        return;
      }
      specWritten := true;

      var ready := rt.CdiReady(config, version);
      ghost var n3 := Apply(rt, n2, Check(version));
      StepsPush(rt, n0, labels, n2, Check(version));
      labels := labels + [Check(version)];
      if ready == Some(true) {
        return;
      }

      var configured := Configure(rt, backupOk, writeOk);
      ghost var n4 := Apply(rt, n3, Backup(backupOk));
      StepsPush(rt, n0, labels, n3, Backup(backupOk));
      labels := labels + [Backup(backupOk)];
      if backupOk {
        StepsPush(rt, n0, labels, n4, Rewrite(writeOk));
        labels := labels + [Rewrite(writeOk)];
      }
      if !configured {
        return;
      }

      StepsPush(rt, n0, labels, Apply(rt, n4, Rewrite(writeOk)), Restart(attempted));
      labels := labels + [Restart(attempted)];
      if attempted {
        restarts := restarts + 1;
      }
    }

    /** Revert, with the backup first and the stripped config as a fallback. */
    method Revert(rt: Runtime, removed: bool)
      modifies this
      ensures State().disk == Reverted(rt, old(State()).disk, removed)
      ensures State() == old(State()).(disk := State().disk)
    {
      if backup.Some? {
        config := backup;
        if removed {
          backup := None;
        }
        return;
      }
      if config.None? {
        return;
      }
      var text := rt.Stripped(config.value);
      if text.Some? {
        config := text;
      }
    }
  }

  lemma StepsOne(rt: Runtime, n: Node, l: Label)
    requires Enabled(n, l)
    ensures Steps(rt, n, [l]) == Some(Apply(rt, n, l))
  {
    assert Steps(rt, Apply(rt, n, l), []) == Some(Apply(rt, n, l));
  }

  lemma {:induction false} StepsPush(rt: Runtime, n: Node, labels: seq<Label>, m: Node, l: Label)
    requires Steps(rt, n, labels) == Some(m) && Enabled(m, l)
    ensures Steps(rt, n, labels + [l]) == Some(Apply(rt, m, l))
    decreases labels
  {
    if labels == [] {
      assert labels + [l] == [l];
      StepsOne(rt, n, l);
    } else {
      assert (labels + [l])[1..] == labels[1..] + [l];
      StepsPush(rt, Apply(rt, n, labels[0]), labels[1..], m, l);
    }
  }
}
