/** Deploy, shutdown and kill cycles of the daemon on a CRI-O node: `setup` of
    cmd/rbln-ctk-daemon/root.go with the drop-in that internal/runtime/configure.go
    writes and the readiness check of internal/runtime/crio_config.go. */
module CrioDeployment {
  import opened Strings
  import opened ConfigTree
  import opened ContainerdConfig
  import opened CrioConfig

  /** generateConfig, without its comment lines. */
  function GeneratedText(): string {
    "[crio.runtime]\ncdi_spec_dirs = [\n    \"/etc/cdi\",\n    \"/var/run/cdi\"\n]\n"
  }

  /** The tree that text stands for. */
  function GeneratedTree(): Tree {
    map["crio" := Table(map["runtime" := Table(map["cdi_spec_dirs" := Array(Texts([CONFIG_DIR, SPEC_DIR]))])])]
  }

  lemma GeneratedDirs()
    ensures SpecDirsOf(GeneratedTree()) == Some(["/etc/cdi", "/var/run/cdi"])
    ensures [CONFIG_DIR, SPEC_DIR] == ["/etc/cdi", "/var/run/cdi"]
  {
    TextsOfTexts([CONFIG_DIR, SPEC_DIR]);
  }

  /** CRI-O's configuration on disk; `text` holds the files that can be read. */
  datatype Layers = Layers(main: Stat, entries: seq<Entry>, text: map<ConfigFile, string>)

  datatype Pc = Idle | Generating | Checking | Writing | Restarting

  datatype Node = Node(layers: Layers, pc: Pc, restarts: nat)

  /** One atomic step on the configuration. `read` is whether the directory could be listed; a write may
      fail without effect; Killed strikes at any point. */
  datatype Label =
    | Start | Generate(ok: bool) | Check(read: bool) | Write(ok: bool) | Restart(attempted: bool)
    | Shutdown | Killed

  function Fresh(layers: Layers): Node {
    Node(layers, Idle, 0)
  }

  /** The TOML library and the name of the toolkit's drop-in file. */
  datatype Crio = Crio(toml: Codec, dropIn: string)
  {
    /** The parser reads the generated text as it is meant. */
    ghost predicate Understood() {
      toml.parse(GeneratedText()) == Some(GeneratedTree())
    }

    ghost predicate Valid(l: Layers) {
      && l.main != StatError
      && (forall i, j :: 0 <= i < j < |FileNames(l.entries)| ==> FileNames(l.entries)[i] != FileNames(l.entries)[j])
      && forall e :: e in l.entries && e.isDir ==> e.name != dropIn
    }

    ghost predicate Ready(l: Layers) {
      exists files :: Layered(l.main, Entries(l.entries), files) && ScansSpecDir(toml, l.text, files)
    }

    /** Configure: the drop-in is written over or made. */
    function Written(l: Layers): Layers {
      Layers(l.main, if dropIn in FileNames(l.entries) then l.entries else l.entries + [Entry(dropIn, false)],
             l.text[DropIn(dropIn) := GeneratedText()])
    }

    /** No drop-in read after the toolkit's sets the key, or the last one that does
        covers the spec dir. */
    ghost predicate Settles(l: Layers) {
      var names := FileNames(l.entries);
      || (forall later :: later in names ==> !Overrides(toml, l.text, names, dropIn, later))
      || exists last :: LastOverride(toml, l.text, names, dropIn, last)
           && Covers(Contribution(toml, l.text, DropIn(last)).value, SPEC_DIR)
    }

    predicate Enabled(n: Node, l: Label) {
      match l
      case Start => n.pc == Idle
      case Generate(_) => n.pc == Generating
      case Check(_) => n.pc == Checking
      case Write(_) => n.pc == Writing
      case Restart(_) => n.pc == Restarting
      case Shutdown => n.pc == Idle
      case Killed => true
    }

    ghost function Apply(n: Node, l: Label): Node
      requires Enabled(n, l)
    {
      match l
      case Start => n.(pc := Generating)
      case Generate(ok) => n.(pc := if ok then Checking else Idle)
      case Check(read) => n.(pc := if read && Ready(n.layers) then Idle else Writing)
      case Write(ok) => if ok then n.(pc := Restarting, layers := Written(n.layers)) else n.(pc := Idle)
      case Restart(attempted) => n.(pc := Idle, restarts := n.restarts + if attempted then 1 else 0)
      case Shutdown => n
      case Killed => n.(pc := Idle)
    }

    ghost function Steps(n: Node, labels: seq<Label>): Option<Node>
      decreases labels
    {
      if labels == [] then Some(n)
      else if Enabled(n, labels[0]) then Steps(Apply(n, labels[0]), labels[1..])
      else None
    }

    /** A deploy goes through its steps one at a time; a shutdown happens between
        deploys, a kill at any time. */
    lemma StepOrder(n: Node, l: Label)
      ensures Enabled(n, l) <==>
        (match n.pc
         case Idle => l == Start || l == Shutdown || l == Killed
         case Generating => l.Generate? || l == Killed
         case Checking => l.Check? || l == Killed
         case Writing => l.Write? || l == Killed
         case Restarting => l.Restart? || l == Killed)
    {
    }

    /** Neither a shutdown nor a kill nor a failing step touches the configuration. */
    lemma FailedStep(n: Node, l: Label)
      requires Enabled(n, l) && (l == Shutdown || l == Killed || l == Generate(false) || l == Write(false))
      ensures Apply(n, l) == n.(pc := Idle)
    {
      hide Written, Ready;
    }

    lemma WrittenNames(l: Layers)
      ensures FileNames(Written(l).entries) ==
        FileNames(l.entries) + if dropIn in FileNames(l.entries) then [] else [dropIn]
    {
      FileNamesPush(l.entries, Entry(dropIn, false));
    }

    lemma WrittenTwice(l: Layers)
      ensures Written(Written(l)) == Written(l)
    {
      WrittenNames(l);
    }

    lemma WrittenValid(l: Layers)
      requires Valid(l)
      ensures Valid(Written(l))
    {
      hide FileNames;
      WrittenNames(l);
    }

    /** Writing the drop-in changes nothing about the files read after it. */
    lemma WrittenOverrides(l: Layers)
      ensures var w := Written(l);
        forall x :: Overrides(toml, w.text, FileNames(w.entries), dropIn, x)
          <==> Overrides(toml, l.text, FileNames(l.entries), dropIn, x)
      ensures forall x :: x != dropIn ==>
        Contribution(toml, Written(l).text, DropIn(x)) == Contribution(toml, l.text, DropIn(x))
    {
      hide FileNames, LessEq;
      WrittenNames(l);
    }

    lemma WrittenSettles(l: Layers)
      ensures Settles(Written(l)) <==> Settles(l)
    {
      hide FileNames, Overrides, Contribution, Covers, Written;
      WrittenOverrides(l);
      WrittenLast(l);
    }

    lemma WrittenLast(l: Layers)
      ensures var w := Written(l);
        forall x :: LastOverride(toml, w.text, FileNames(w.entries), dropIn, x)
          <==> LastOverride(toml, l.text, FileNames(l.entries), dropIn, x)
      ensures forall x :: LastOverride(toml, l.text, FileNames(l.entries), dropIn, x) ==> x != dropIn
      ensures forall x :: x in FileNames(l.entries) ==> x in FileNames(Written(l).entries)
      ensures forall x :: x in FileNames(Written(l).entries) ==> x in FileNames(l.entries) || x == dropIn
      ensures !Overrides(toml, l.text, FileNames(l.entries), dropIn, dropIn)
    {
      hide FileNames, LessEq, Contribution;
      WrittenNames(l);
      WrittenOverrides(l);
    }

    /** With the drop-in written, the node is ready exactly when it settles. */
    lemma ReadyOnceWritten(l: Layers)
      requires Understood() && Valid(l)
      ensures Ready(Written(l)) <==> Settles(l)
    {
      hide FileNames, Overrides, LastOverride, Covers, ScansSpecDir, Layered, SpecDirsOf;
      var w := Written(l);
      WrittenNames(l);
      WrittenValid(l);
      WrittenSettles(l);
      GeneratedDirs();
      var some := SomeLayers(w.main, w.entries);
      forall files | Layered(w.main, Entries(w.entries), files)
        ensures ScansSpecDir(toml, w.text, files) <==> Settles(w)
      {
        DropInDecides(toml, w.text, w.main, w.entries, files, dropIn);
      }
    }

    /** Before the first write nothing is changed; after it the node is ready for
        good, and there has been or will be one restart for it and one more for each
        check that could not read. */
    ghost predicate Inv(original: Layers, unread: nat, n: Node) {
      (n.layers == original && n.restarts == 0 && n.pc != Restarting)
      || (n.layers == Written(original) && Ready(n.layers)
          && n.restarts + (if n.pc == Writing || n.pc == Restarting then 1 else 0) <= 1 + unread)
    }

    lemma InvStep(original: Layers, unread: nat, n: Node, l: Label)
      requires Ready(Written(original)) && Inv(original, unread, n) && Enabled(n, l)
      ensures Inv(original, unread + if l == Check(false) then 1 else 0, Apply(n, l))
    {
      hide Ready, Written;
      WrittenTwice(original);
    }

    lemma {:induction false} InvSteps(original: Layers, unread: nat, n: Node, labels: seq<Label>)
      requires Ready(Written(original)) && Inv(original, unread, n) && Steps(n, labels).Some?
      ensures Inv(original, unread + UnreadChecks(labels), Steps(n, labels).value)
      decreases labels
    {
      hide Ready, Written, Inv, Enabled, Apply;
      if labels != [] {
        InvStep(original, unread, n, labels[0]);
        InvSteps(original, unread + if labels[0] == Check(false) then 1 else 0, Apply(n, labels[0]), labels[1..]);
      }
    }

    /** A deploy on a node that is not ready, undisturbed: it writes the drop-in and
        restarts the runtime. */
    lemma DeployRestarts(n: Node, rest: seq<Label>)
      requires n.pc == Idle && !Ready(n.layers)
      ensures Steps(n, DeployThen(rest))
        == Steps(Node(Written(n.layers), Idle, n.restarts + 1), rest)
    {
      hide Ready, Written, Steps;
      var n1 := Apply(n, Start);
      var n2 := Apply(n1, Generate(true));
      var n3 := Apply(n2, Check(true));
      var n4 := Apply(n3, Write(true));
      var afterWrite := [Restart(true)] + rest;
      var afterCheck := [Write(true)] + afterWrite;
      var afterGenerate := [Check(true)] + afterCheck;
      StepsOne(n, Start, [Generate(true)] + afterGenerate);
      StepsOne(n1, Generate(true), afterGenerate);
      StepsOne(n2, Check(true), afterCheck);
      StepsOne(n3, Write(true), afterWrite);
      StepsOne(n4, Restart(true), rest);
    }

    lemma StepsOne(n: Node, l: Label, rest: seq<Label>)
      requires Enabled(n, l)
      ensures Steps(n, [l] + rest) == Steps(Apply(n, l), rest)
    {
      hide Enabled, Apply;
      assert ([l] + rest)[1..] == rest;
    }

    /** A node that does not settle is restarted by every deploy. */
    lemma {:induction false} EveryDeployRestarts(n: Node, count: nat)
      requires Understood() && Valid(n.layers) && !Ready(n.layers) && !Settles(n.layers) && n.pc == Idle
      ensures var end := Steps(n, Deploys(count));
        end.Some? && end.value.restarts == n.restarts + count
      decreases count
    {
      hide Understood, Valid, Ready, Settles, Written, Steps, Enabled, Apply;
      if count > 0 {
        ReadyOnceWritten(n.layers);
        WrittenSettles(n.layers);
        WrittenValid(n.layers);
        DeployRestarts(n, Deploys(count - 1));
        EveryDeployRestarts(Node(Written(n.layers), Idle, n.restarts + 1), count - 1);
      } else {
        StepsNone(n);
      }
    }

    lemma StepsNone(n: Node)
      ensures Steps(n, []) == Some(n)
    {
    }

    /** On a node that is not ready to begin with, over all sequences of deploys,
        shutdowns and kills the runtime is restarted at most once, and once more for
        each check that could not list the drop-ins, if and only if no drop-in read
        after the toolkit's sets the key or the last one that does covers the spec
        dir. */
    lemma RestartedAtMostOnceExactly(layers: Layers)
      requires Understood() && Valid(layers) && !Ready(layers)
      ensures (forall labels :: Steps(Fresh(layers), labels).Some? ==>
                 Steps(Fresh(layers), labels).value.restarts <= 1 + UnreadChecks(labels))
        <==> Settles(layers)
    {
      hide Understood, Valid, Ready, Settles, Written, Steps, Enabled, Apply;
      ReadyOnceWritten(layers);
      if Settles(layers) {
        forall labels | Steps(Fresh(layers), labels).Some?
          ensures Steps(Fresh(layers), labels).value.restarts <= 1 + UnreadChecks(labels)
        {
          InvSteps(layers, 0, Fresh(layers), labels);
        }
      } else {
        EveryDeployRestarts(Fresh(layers), 2);
        NothingUnread(2);
      }
    }

    /** A node that is ready is never touched while its drop-ins can be listed. */
    lemma {:induction false} ReadyNodeUntouched(n: Node, labels: seq<Label>)
      requires Ready(n.layers) && (n.pc == Idle || n.pc == Generating || n.pc == Checking)
      requires Steps(n, labels).Some? && UnreadChecks(labels) == 0
      ensures var m := Steps(n, labels).value;
        m.layers == n.layers && m.restarts == n.restarts
      decreases labels
    {
      hide Ready, Written;
      if labels != [] {
        ReadyNodeUntouched(Apply(n, labels[0]), labels[1..]);
      }
    }
  }

  /** One whole deploy, and what comes after it. */
  function DeployThen(rest: seq<Label>): seq<Label> {
    [Start] + ([Generate(true)] + ([Check(true)] + ([Write(true)] + ([Restart(true)] + rest))))
  }

  /** Deploys, one after the other. */
  function Deploys(count: nat): seq<Label> {
    if count == 0 then [] else DeployThen(Deploys(count - 1))
  }

  /** Checks that could not list the drop-ins. */
  function UnreadChecks(labels: seq<Label>): nat {
    if labels == [] then 0 else (if labels[0] == Check(false) then 1 else 0) + UnreadChecks(labels[1..])
  }

  lemma UnreadInDeploy(rest: seq<Label>)
    ensures UnreadChecks(DeployThen(rest)) == UnreadChecks(rest)
  {
    hide UnreadChecks;
    UnreadOne(Restart(true), rest);
    UnreadOne(Write(true), [Restart(true)] + rest);
    UnreadOne(Check(true), [Write(true)] + ([Restart(true)] + rest));
    UnreadOne(Generate(true), [Check(true)] + ([Write(true)] + ([Restart(true)] + rest)));
    UnreadOne(Start, [Generate(true)] + ([Check(true)] + ([Write(true)] + ([Restart(true)] + rest))));
  }

  lemma UnreadOne(l: Label, rest: seq<Label>)
    ensures UnreadChecks([l] + rest) == (if l == Check(false) then 1 else 0) + UnreadChecks(rest)
  {
    assert ([l] + rest)[1..] == rest;
  }

  lemma {:induction false} NothingUnread(count: nat)
    ensures UnreadChecks(Deploys(count)) == 0
  {
    if count > 0 {
      UnreadInDeploy(Deploys(count - 1));
      NothingUnread(count - 1);
    }
  }

  lemma {:induction false} SomeSorted(xs: seq<string>) returns (sorted: seq<string>)
    ensures Sorted(sorted) && multiset(sorted) == multiset(xs)
  {
    if xs == [] {
      sorted := [];
    } else {
      var rest := SomeSorted(xs[1..]);
      InsertSorts(xs[0], rest);
      sorted := Insert(xs[0], rest);
      assert xs == [xs[0]] + xs[1..];
    }
  }

  lemma SomeLayers(main: Stat, entries: seq<Entry>) returns (files: seq<ConfigFile>)
    ensures Layered(main, Entries(entries), files)
  {
    var sorted := SomeSorted(FileNames(entries));
    files := (if main == IsFile then [MainConf] else []) + DropIns(sorted);
  }
}
