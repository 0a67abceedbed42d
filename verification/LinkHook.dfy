/** The `target::link` encoding of internal/cdi/generator.go and the hook that
    decodes and applies it in a container, cmd/rbln-cdi-hook/create_symlinks.go. */
module LinkHook {
  import opened Strings
  import opened Paths

  const SEPARATOR := "::"

  function FormatLink(target: string, link: string): string {
    target + SEPARATOR + link
  }

  /** `strings.SplitN(s, "::", 2)`: cut at the first separator, None without one. */
  function CutLink(s: string): Option<(string, string)> {
    if |s| < 2 then None
    else if s[..2] == SEPARATOR then Some(("", s[2..]))
    else
      match CutLink(s[1..])
      case None => None
      case Some((target, link)) => Some(([s[0]] + target, link))
  }

  predicate SeparatorAt(s: string, i: int) {
    0 <= i < |s| - 1 && s[i] == ':' && s[i + 1] == ':'
  }

  /** No separator inside the target, nor one started by its last character. */
  ghost predicate Cuttable(target: string) {
    && (forall i :: !SeparatorAt(target, i))
    && (target == "" || target[|target| - 1] != ':')
  }

  lemma CuttableTail(target: string)
    requires |target| > 0
    ensures Cuttable(target) <==> (target[0] != ':' || (|target| > 1 && target[1] != ':')) && Cuttable(target[1..])
  {
    var tail := target[1..];
    forall i
      ensures SeparatorAt(tail, i) <==> i >= 0 && SeparatorAt(target, i + 1)
    {
    }
    if Cuttable(target) {
      assert !SeparatorAt(target, 0);
    } else if Cuttable(tail) && |target| > 1 {
      var i :| SeparatorAt(target, i);
      assert i > 0 ==> SeparatorAt(tail, i - 1);
    }
  }

  /** An emitted specification is read back as the pair it was made from exactly
      when its target has no "::" in it and no ':' at its end. */
  lemma {:induction false} LinkRoundTrip(target: string, link: string)
    ensures CutLink(FormatLink(target, link)) == Some((target, link)) <==> Cuttable(target)
  {
    hide Cuttable;
    var s := FormatLink(target, link);
    if target == "" {
      EmptyCuttable();
      assert s[..2] == SEPARATOR && s[2..] == link;
    } else {
      CuttableTail(target);
      LinkRoundTrip(target[1..], link);
      assert s[1..] == FormatLink(target[1..], link);
      assert target == [target[0]] + target[1..];
      assert s[..2] == [s[0], s[1]] && s[0] == target[0];
      assert s[1] == if |target| > 1 then target[1] else ':';
    }
  }

  lemma EmptyCuttable()
    ensures Cuttable("")
  {
  }

  /** A place in the container, as the components of its cleaned path. */
  type Place = seq<string>

  datatype Node = Directory | File | Link(target: string)

  /** A container filesystem; the root `[]` always exists. */
  type Files = map<Place, Node>

  function Parent(p: Place): Place {
    if p == [] then [] else p[..|p| - 1]
  }

  /** os.MkdirAll: None if something on the way is not a directory. */
  function MakeDirs(fs: Files, p: Place): Option<Files> {
    if p == [] then Some(fs)
    else
      match MakeDirs(fs, Parent(p))
      case None => None
      case Some(fs') =>
        if p !in fs' then Some(fs'[p := Directory])
        else if fs'[p] == Directory then Some(fs') else None
  }

  predicate HasChild(fs: Files, p: Place) {
    exists q :: q in fs && p < q
  }

  /** os.Remove refuses the root and a directory with something in it. */
  predicate Busy(fs: Files, p: Place) {
    p == [] || (p in fs && fs[p] == Directory && HasChild(fs, p))
  }

  /** forceCreateSymlink where no system call fails for outside reasons: replace
      whatever can be removed; symlink(2) refuses an empty target. */
  function ForceLink(fs: Files, target: string, p: Place): Option<Files> {
    if Busy(fs, p) || target == "" then None else Some(fs[p := Link(target)])
  }

  function CreateLink(fs: Files, target: string, p: Place): Option<Files> {
    if p in fs && fs[p] == Link(target) then Some(fs)
    else
      match MakeDirs(fs, Parent(p))
      case None => None
      case Some(fs') => ForceLink(fs', target, p)
  }

  /** What the system calls for one link answer where the tree would let them
      through: how many directories can be made, and whether removing the old entry
      and creating the link work. */
  datatype Calls = Calls(mkdirs: nat, remove: bool, symlink: bool)

  datatype Outcome = Outcome(fs: Files, ok: bool)

  /** os.MkdirAll with only `n` directories to be made; the second result is how
      many of these are left. */
  function MakeSome(fs: Files, p: Place, n: nat): (Outcome, nat) {
    if p == [] then (Outcome(fs, true), n)
    else
      var (up, left) := MakeSome(fs, Parent(p), n);
      if !up.ok then (up, left)
      else if p in up.fs then (Outcome(up.fs, up.fs[p] == Directory), left)
      else if left == 0 then (Outcome(up.fs, false), 0)
      else (Outcome(up.fs[p := Directory], true), left - 1)
  }

  /** forceCreateSymlink: the old entry is gone before the link can fail. */
  function ForceWith(fs: Files, target: string, p: Place, calls: Calls): Outcome {
    if Busy(fs, p) || (p in fs && !calls.remove) then Outcome(fs, false)
    else if target == "" || !calls.symlink then Outcome(fs - {p}, false)
    else Outcome(fs[p := Link(target)], true)
  }

  /** createSymlinkInContainer with the state it leaves, failed or not. */
  function CreateWith(fs: Files, target: string, p: Place, calls: Calls): Outcome {
    if p in fs && fs[p] == Link(target) then Outcome(fs, true)
    else
      var made := MakeSome(fs, Parent(p), calls.mkdirs).0;
      if made.ok then ForceWith(made.fs, target, p, calls) else made
  }

  /** One decoded specification. */
  datatype LinkSpec = LinkSpec(target: string, place: Place)

  function Apply(fs: Files, specs: seq<LinkSpec>): Option<Files> {
    if specs == [] then Some(fs)
    else
      match Apply(fs, specs[..|specs| - 1])
      case None => None
      case Some(fs') => CreateLink(fs', specs[|specs| - 1].target, specs[|specs| - 1].place)
  }

  /** Decoding relative to the container root; None for a malformed text. */
  function Decode(root: string, text: string): Option<LinkSpec> {
    match CutLink(text)
    case None => None
    case Some((target, link)) => Some(LinkSpec(target, Components(JoinPath(root, link))))
  }

  function DecodeAll(root: string, texts: seq<string>): Option<seq<LinkSpec>> {
    if texts == [] then Some([])
    else
      match (DecodeAll(root, texts[..|texts| - 1]), Decode(root, texts[|texts| - 1]))
      case (Some(specs), Some(spec)) => Some(specs + [spec])
      case _ => None
  }

  /** The texts without exact repeats, each where it first occurs. */
  function FirstOccurrences(texts: seq<string>): seq<string> {
    if texts == [] then []
    else
      var front, last := texts[..|texts| - 1], texts[|texts| - 1];
      FirstOccurrences(front) + if last in front then [] else [last]
  }

  /** executeCreateSymlinks where no call fails for outside reasons: None if a text
      is malformed or a link cannot be made. */
  function Executed(fs: Files, root: string, texts: seq<string>): Option<Files> {
    match DecodeAll(root, FirstOccurrences(texts))
    case None => None
    case Some(specs) => Apply(fs, specs)
  }

  /** executeCreateSymlinks under any answers of the system, None if it fails. */
  function ExecutedWith(fs: Files, root: string, calls: string -> Calls, texts: seq<string>): Option<Files> {
    if texts == [] then Some(fs)
    else
      var front, last := texts[..|texts| - 1], texts[|texts| - 1];
      match ExecutedWith(fs, root, calls, front)
      case None => None
      case Some(mid) =>
        if last in front then Some(mid)
        else if TextDone(mid, root, calls, last).ok then Some(TextDone(mid, root, calls, last).fs)
        else None
  }

  /** Processing one text. */
  function TextDone(fs: Files, root: string, calls: string -> Calls, text: string): Outcome {
    match Decode(root, text)
    case None => Outcome(fs, false)
    case Some(spec) => CreateWith(fs, spec.target, spec.place, calls(text))
  }

  /** Why the hook gave up. */
  datatype LinkError = Malformed(text: string) | LinkFailed(link: string, target: string)

  function ErrorOf(text: string): LinkError {
    match CutLink(text) case None => Malformed(text) case Some((target, link)) => LinkFailed(link, target)
  }

  /** The texts before the n-th can be processed, the n-th cannot. */
  ghost predicate FailsAt(fs: Files, root: string, calls: string -> Calls, texts: seq<string>, n: int) {
    && 0 <= n < |texts| && ExecutedWith(fs, root, calls, texts[..n]).Some?
    && ExecutedWith(fs, root, calls, texts[..n + 1]).None?
  }

  /** The container being prepared. */
  class Container {
    const root: string
    var fs: Files

    constructor (root: string, fs: Files)
      ensures this.root == root && this.fs == fs
    {
      this.root, this.fs := root, fs;
    }

    method MkdirAll(p: Place, n: nat) returns (ok: bool, left: nat)
      modifies this
      ensures (Outcome(fs, ok), left) == MakeSome(old(fs), p, n)
      decreases |p|
    {
      if p == [] {
        return true, n;
      }
      ok, left := MkdirAll(Parent(p), n);
      if !ok {
        return;
      }
      if p in fs {
        return fs[p] == Directory, left;
      }
      if left == 0 {
        return false, 0;
      }
      fs := fs[p := Directory];
      return true, left - 1;
    }

    method ForceCreateSymlink(target: string, p: Place, calls: Calls) returns (ok: bool)
      modifies this
      ensures Outcome(fs, ok) == ForceWith(old(fs), target, p, calls)
    {
      if p == [] || p in fs {
        if Busy(fs, p) || !calls.remove {
          return false;
        }
        fs := fs - {p};
      }
      if target == "" || !calls.symlink {
        assert p !in old(fs) ==> fs == old(fs) - {p};
        return false;
      }
      fs := fs[p := Link(target)];
      assert fs == old(fs)[p := Link(target)];
      return true;
    }

    method CreateSymlinkInContainer(target: string, link: string, calls: Calls) returns (ok: bool)
      modifies this
      ensures Outcome(fs, ok) == CreateWith(old(fs), target, Components(JoinPath(root, link)), calls)
    {
      var place := Components(JoinPath(root, link));
      if place in fs && fs[place] == Link(target) {
        return true;
      }
      var left;
      ok, left := MkdirAll(Parent(place), calls.mkdirs);
      if ok {
        ok := ForceCreateSymlink(target, place, calls);
      }
    }

    /** Processes the texts in order and stops at the first error, leaving what the
        texts before it and the failing one itself have done. */
    method ExecuteCreateSymlinks(texts: seq<string>, calls: string -> Calls) returns (err: Option<LinkError>)
      modifies this
      ensures err.None? ==>
        Some(fs) == ExecutedWith(old(fs), root, calls, texts) == Executed(old(fs), root, texts)
      ensures err.Some? ==>
        && ExecutedWith(old(fs), root, calls, texts).None?
        && exists n :: FailsAt(old(fs), root, calls, texts, n) && err.value == ErrorOf(texts[n])
             && fs == TextDone(ExecutedWith(old(fs), root, calls, texts[..n]).value, root, calls, texts[n]).fs
    {
      hide Executed, ExecutedWith, CreateWith, JoinPath, CutLink;
      var created: set<string> := {};
      ExecutedWithNone(fs, root, calls);
      assert texts[..0] == [];
      for i := 0 to |texts|
        invariant forall t :: t in created <==> t in texts[..i]
        invariant ExecutedWith(old(fs), root, calls, texts[..i]) == Some(fs)
      {
        assert texts[..i + 1] == texts[..i] + [texts[i]];
        ExecutedWithPush(old(fs), root, calls, texts[..i], texts[i]);
        if texts[i] in created {
          continue;
        }
        var parts := CutLink(texts[i]);
        if parts.None? {
          FailsForGood(old(fs), root, calls, texts, i + 1);
          assert FailsAt(old(fs), root, calls, texts, i);
          return Some(Malformed(texts[i]));
        }
        var (target, link) := parts.value;
        var made := CreateSymlinkInContainer(target, link, calls(texts[i]));
        if !made {
          FailsForGood(old(fs), root, calls, texts, i + 1);
          assert FailsAt(old(fs), root, calls, texts, i);
          return Some(LinkFailed(link, target));
        }
        created := created + {texts[i]};
      }
      assert texts[..|texts|] == texts;
      SuccessIsExecuted(old(fs), root, calls, texts);
      return None;
    }
  }

  lemma ExecutedWithNone(fs: Files, root: string, calls: string -> Calls)
    ensures ExecutedWith(fs, root, calls, []) == Some(fs)
  {
  }

  lemma ExecutedWithPush(fs: Files, root: string, calls: string -> Calls, texts: seq<string>, text: string)
    ensures ExecutedWith(fs, root, calls, texts + [text]) ==
      match ExecutedWith(fs, root, calls, texts)
      case None => None
      case Some(mid) =>
        if text in texts then Some(mid)
        else if TextDone(mid, root, calls, text).ok then Some(TextDone(mid, root, calls, text).fs)
        else None
  {
    hide TextDone;
    assert (texts + [text])[..|texts|] == texts;
  }

  /** Once a prefix of the texts fails, the whole list does. */
  lemma {:induction false} FailsForGood(fs: Files, root: string, calls: string -> Calls, texts: seq<string>, n: nat)
    requires n <= |texts| && ExecutedWith(fs, root, calls, texts[..n]).None?
    ensures ExecutedWith(fs, root, calls, texts).None?
    decreases |texts| - n
  {
    hide ExecutedWith, TextDone;
    if n == |texts| {
      assert texts[..n] == texts;
    } else {
      assert texts[..n + 1] == texts[..n] + [texts[n]];
      ExecutedWithPush(fs, root, calls, texts[..n], texts[n]);
      FailsForGood(fs, root, calls, texts, n + 1);
    }
  }

  /** The place of the first error is determined. */
  lemma FailsOnce(fs: Files, root: string, calls: string -> Calls, texts: seq<string>, m: int, n: int)
    requires FailsAt(fs, root, calls, texts, m) && FailsAt(fs, root, calls, texts, n)
    ensures m == n
  {
    hide ExecutedWith;
    if m < n {
      PrefixFails(fs, root, calls, texts, m, n);
    } else if n < m {
      PrefixFails(fs, root, calls, texts, n, m);
    }
  }

  lemma PrefixFails(fs: Files, root: string, calls: string -> Calls, texts: seq<string>, m: nat, n: nat)
    requires m < n <= |texts| && ExecutedWith(fs, root, calls, texts[..m + 1]).None?
    ensures ExecutedWith(fs, root, calls, texts[..n]).None?
  {
    hide ExecutedWith;
    assert texts[..n][..m + 1] == texts[..m + 1];
    FailsForGood(fs, root, calls, texts[..n], m + 1);
  }

  lemma {:induction false} MadeIsMkdirAll(fs: Files, p: Place, n: nat)
    ensures MakeSome(fs, p, n).0.ok ==> MakeDirs(fs, p) == Some(MakeSome(fs, p, n).0.fs)
    ensures n >= |p| ==> MakeSome(fs, p, n).1 >= n - |p|
    ensures n >= |p| && MakeDirs(fs, p).Some? ==> MakeSome(fs, p, n).0.ok
    decreases |p|
  {
    if p != [] {
      MadeIsMkdirAll(fs, Parent(p), n);
    }
  }

  /** A link that was made is the one the system makes when nothing goes wrong, and
      it is made if nothing does. */
  lemma CreatedIsCreateLink(fs: Files, target: string, p: Place, calls: Calls)
    ensures CreateWith(fs, target, p, calls).ok ==>
      CreateLink(fs, target, p) == Some(CreateWith(fs, target, p, calls).fs)
    ensures calls.mkdirs >= |p| && calls.remove && calls.symlink && CreateLink(fs, target, p).Some? ==>
      CreateWith(fs, target, p, calls).ok
  {
    hide MakeSome, MakeDirs, Busy;
    MadeIsMkdirAll(fs, Parent(p), calls.mkdirs);
  }

  /** What the hook leaves when it succeeds does not depend on the system. */
  lemma {:induction false} SuccessIsExecuted(fs: Files, root: string, calls: string -> Calls, texts: seq<string>)
    requires ExecutedWith(fs, root, calls, texts).Some?
    ensures Executed(fs, root, texts) == ExecutedWith(fs, root, calls, texts)
  {
    hide Executed, CreateWith, CreateLink, Decode;
    if texts == [] {
      ExecutedNone(fs, root);
    } else {
      var front, last := texts[..|texts| - 1], texts[|texts| - 1];
      SuccessIsExecuted(fs, root, calls, front);
      assert texts == front + [last];
      ExecutedPush(fs, root, front, last);
      if last !in front {
        var mid, spec := Executed(fs, root, front).value, Decode(root, last).value;
        CreatedIsCreateLink(mid, spec.target, spec.place, calls(last));
      }
    }
  }

  lemma ExecutedNone(fs: Files, root: string)
    ensures Executed(fs, root, []) == Some(fs)
  {
  }

  /** One more text: skipped if seen before, else decoded and applied. */
  lemma ExecutedPush(fs: Files, root: string, texts: seq<string>, text: string)
    ensures Executed(fs, root, texts + [text]) ==
      if text in texts then Executed(fs, root, texts)
      else
        match (Executed(fs, root, texts), Decode(root, text))
        case (Some(fs'), Some(spec)) => CreateLink(fs', spec.target, spec.place)
        case _ => None
  {
    hide CreateLink, Decode;
    assert (texts + [text])[..|texts|] == texts;
    if text !in texts {
      var unique := FirstOccurrences(texts);
      assert (unique + [text])[..|unique|] == unique;
      if DecodeAll(root, unique).Some? && Decode(root, text).Some? {
        var specs, spec := DecodeAll(root, unique).value, Decode(root, text).value;
        assert (specs + [spec])[..|specs|] == specs;
      }
    } else {
      assert FirstOccurrences(texts + [text]) == FirstOccurrences(texts);
    }
  }

  /** The target the last specification for a place asks for. */
  function LastTarget(specs: seq<LinkSpec>, p: Place): Option<string> {
    if specs == [] then None
    else if specs[|specs| - 1].place == p then Some(specs[|specs| - 1].target)
    else LastTarget(specs[..|specs| - 1], p)
  }

  /** `q` is a directory on the way to `p`. */
  predicate Above(q: Place, p: Place) {
    [] < q < p
  }

  predicate UpTo(q: Place, p: Place) {
    [] < q <= p
  }

  lemma WaysToParent(p: Place)
    requires p != []
    ensures forall q :: UpTo(q, Parent(p)) <==> Above(q, p)
    ensures forall q :: UpTo(q, p) <==> Above(q, p) || q == p
  {
    forall q
      ensures UpTo(q, Parent(p)) <==> Above(q, p)
    {
    }
  }

  /** Every node sits inside real directories, no link is empty; the root is not
      listed. */
  ghost predicate Tree(fs: Files) {
    && [] !in fs && (forall p :: p in fs ==> fs[p] != Link(""))
    && forall p, q :: p in fs && Above(q, p) ==> q in fs && fs[q] == Directory
  }

  lemma {:induction false} MakeDirsAdds(fs: Files, p: Place)
    requires MakeDirs(fs, p).Some?
    ensures var fs' := MakeDirs(fs, p).value;
      && (forall q :: q in fs ==> q in fs' && fs'[q] == fs[q])
      && (forall q :: q in fs' && q !in fs ==> UpTo(q, p))
      && (forall q :: UpTo(q, p) ==> q in fs' && fs'[q] == Directory)
    decreases |p|
  {
    if p != [] {
      MakeDirsAdds(fs, Parent(p));
      WaysToParent(p);
    }
  }

  lemma {:induction false} MakeDirsIdle(fs: Files, p: Place)
    requires forall q :: UpTo(q, p) ==> q in fs && fs[q] == Directory
    ensures MakeDirs(fs, p) == Some(fs)
    decreases |p|
  {
    if p != [] {
      WaysToParent(p);
      MakeDirsIdle(fs, Parent(p));
      assert UpTo(p, p);
    }
  }

  lemma TreeAbove(fs: Files, p: Place)
    requires Tree(fs) && p in fs
    ensures forall q :: Above(q, p) ==> q in fs && fs[q] == Directory
  {
  }

  /** In a tree MkdirAll refuses only a node that is no directory, with every
      directory above it there already. */
  lemma {:induction false} DirsFailAtObstacle(fs: Files, p: Place) returns (q: Place)
    requires Tree(fs) && MakeDirs(fs, p).None?
    ensures UpTo(q, p) && q in fs && fs[q] != Directory
    ensures forall r :: Above(r, q) ==> r in fs && fs[r] == Directory
    decreases |p|
  {
    hide Tree;
    WaysToParent(p);
    match MakeDirs(fs, Parent(p))
    case None =>
      q := DirsFailAtObstacle(fs, Parent(p));
    case Some(made) =>
      MakeDirsAdds(fs, Parent(p));
      q := p;
      TreeAbove(fs, p);
  }

  lemma {:induction false} MakeSomeAdds(fs: Files, p: Place, n: nat)
    ensures var made := MakeSome(fs, p, n).0;
      && (forall q :: q in fs ==> q in made.fs && made.fs[q] == fs[q])
      && (forall q :: q in made.fs && q !in fs ==> UpTo(q, p) && made.fs[q] == Directory)
      && (made.ok ==> forall q :: UpTo(q, p) ==> q in made.fs && made.fs[q] == Directory)
      && MakeSome(fs, p, n).1 <= n
    decreases |p|
  {
    if p != [] {
      MakeSomeAdds(fs, Parent(p), n);
      WaysToParent(p);
    }
  }

  lemma {:induction false} MakeSomeIdle(fs: Files, p: Place, n: nat)
    requires forall q :: UpTo(q, p) ==> q in fs && fs[q] == Directory
    ensures MakeSome(fs, p, n) == (Outcome(fs, true), n)
    decreases |p|
  {
    if p != [] {
      WaysToParent(p);
      MakeSomeIdle(fs, Parent(p), n);
      assert UpTo(p, p);
    }
  }

  lemma {:induction false} MakeSomeTree(fs: Files, p: Place, n: nat)
    requires Tree(fs)
    ensures Tree(MakeSome(fs, p, n).0.fs)
    decreases |p|
  {
    if p != [] {
      hide Tree;
      MakeSomeTree(fs, Parent(p), n);
      MakeSomeAdds(fs, Parent(p), n);
      var (up, left) := MakeSome(fs, Parent(p), n);
      WaysToParent(p);
      if up.ok && p !in up.fs {
        TreePush(up.fs, p);
      }
    }
  }

  lemma TreePush(fs: Files, p: Place)
    requires Tree(fs) && p != [] && p !in fs && forall q :: Above(q, p) ==> q in fs && fs[q] == Directory
    ensures Tree(fs[p := Directory])
  {
  }

  /** Making the way to `p` is stopped by a node that is no directory. */
  ghost predicate Obstructed(fs: Files, p: Place) {
    exists q :: UpTo(q, p) && q in fs && fs[q] != Directory
  }

  /** The way to `p` is all there. */
  ghost predicate Paved(fs: Files, p: Place) {
    forall q :: UpTo(q, p) ==> q in fs
  }

  /** MkdirAll changes a tree exactly when something is missing, nothing is in the
      way and a directory can be made. */
  lemma {:induction false} MakeSomeChanges(fs: Files, p: Place, n: nat)
    requires Tree(fs)
    ensures MakeSome(fs, p, n).0.fs == fs <==> Obstructed(fs, p) || Paved(fs, p) || n == 0
    decreases |p|
  {
    if p != [] {
      MakeSomeChanges(fs, Parent(p), n);
      MakeSomeAdds(fs, Parent(p), n);
      MakeSomeAdds(fs, p, n);
      WaysToParent(p);
      assert UpTo(p, p);
      if Obstructed(fs, Parent(p)) {
        ObstructionIsFinal(fs, p, n);
      } else if p in fs {
        MakeSomeIdle(fs, Parent(p), n);
      } else if Paved(fs, Parent(p)) {
        MakeSomeIdle(fs, Parent(p), n);
      }
    }
  }

  lemma ObstructionIsFinal(fs: Files, p: Place, n: nat)
    requires p != [] && Obstructed(fs, Parent(p))
    ensures MakeSome(fs, p, n) == MakeSome(fs, Parent(p), n) && Obstructed(fs, p)
  {
    MakeSomeAdds(fs, Parent(p), n);
    WaysToParent(p);
    var q :| UpTo(q, Parent(p)) && q in fs && fs[q] != Directory;
    assert UpTo(q, p);
  }

  /** The link's way lacks a directory that will be made. */
  ghost predicate MakesParents(fs: Files, p: Place, calls: Calls) {
    !Obstructed(fs, Parent(p)) && !Paved(fs, Parent(p)) && calls.mkdirs > 0
  }

  /** The old entry will be removed. */
  predicate RemovesOld(fs: Files, p: Place, calls: Calls) {
    p in fs && !Busy(fs, p) && calls.remove
  }

  /** A link that fails leaves a tree as it was exactly when no parent is missing
      that will be made and there is no old entry that will be removed; otherwise
      the tree loses at most the old entry and gains at most missing parents. */
  lemma FailedLink(fs: Files, target: string, p: Place, calls: Calls)
    requires Tree(fs) && !CreateWith(fs, target, p, calls).ok
    ensures var left := CreateWith(fs, target, p, calls).fs;
      && Tree(left)
      && (forall q :: q in fs && q != p ==> q in left && left[q] == fs[q])
      && (p in left ==> p in fs && left[p] == fs[p])
      && (forall q :: q in left && q !in fs ==> Above(q, p) && left[q] == Directory)
      && (left == fs <==> !MakesParents(fs, p, calls) && !RemovesOld(fs, p, calls))
  {
    hide Tree, MakeSome, Obstructed, Paved;
    var made := MakeSome(fs, Parent(p), calls.mkdirs).0;
    MakeSomeTree(fs, Parent(p), calls.mkdirs);
    MakeSomeAdds(fs, Parent(p), calls.mkdirs);
    MakeSomeChanges(fs, Parent(p), calls.mkdirs);
    if p == [] {
      RootHasNoWay(fs);
    } else {
      WaysToParent(p);
      if p in fs {
        TreeAbove(fs, p);
        MakeSomeIdle(fs, Parent(p), calls.mkdirs);
        NothingMissing(fs, Parent(p));
        if RemovesOld(fs, p, calls) {
          TreeWithout(fs, p);
        }
      } else {
        assert p !in made.fs;
        assert made.fs - {p} == made.fs;
      }
    }
  }

  lemma NothingMissing(fs: Files, p: Place)
    requires forall q :: UpTo(q, p) ==> q in fs && fs[q] == Directory
    ensures Paved(fs, p) && !Obstructed(fs, p)
  {
  }

  lemma RootHasNoWay(fs: Files)
    ensures Paved(fs, []) && forall n: nat :: MakeSome(fs, [], n) == (Outcome(fs, true), n)
    ensures Tree(fs) ==> [] !in fs
  {
  }

  lemma TreeWithout(fs: Files, p: Place)
    requires Tree(fs) && p in fs && !Busy(fs, p)
    ensures Tree(fs - {p})
  {
    forall x, q | x in fs - {p} && Above(q, x)
      ensures q in fs - {p} && (fs - {p})[q] == Directory
    {
      assert q in fs && fs[q] == Directory && HasChild(fs, q);
    }
  }

  /** Making a link touches nothing else that was there. */
  lemma CreateLinkKeeps(fs: Files, target: string, p: Place)
    requires CreateLink(fs, target, p).Some?
    ensures var fs' := CreateLink(fs, target, p).value;
      && p in fs' && fs'[p] == Link(target)
      && (forall q :: q in fs && q != p ==> q in fs' && fs'[q] == fs[q])
      && (p in fs && fs[p] == Directory ==> !HasChild(fs, p))
  {
    if !(p in fs && fs[p] == Link(target)) {
      MakeDirsAdds(fs, Parent(p));
      var made := MakeDirs(fs, Parent(p)).value;
      if p in fs && HasChild(fs, p) {
        var q :| q in fs && p < q;
        assert q in made;
      }
    }
  }

  lemma CreateLinkTree(fs: Files, target: string, p: Place)
    requires Tree(fs) && CreateLink(fs, target, p).Some?
    ensures Tree(CreateLink(fs, target, p).value)
  {
    CreateLinkKeeps(fs, target, p);
    if !(p in fs && fs[p] == Link(target)) {
      MakeDirsAdds(fs, Parent(p));
      var made := MakeDirs(fs, Parent(p)).value;
      var fs' := made[p := Link(target)];
      assert CreateLink(fs, target, p) == Some(fs') && p != [];
      WaysToParent(p);
      forall r, q | r in fs' && Above(q, r)
        ensures q in fs' && fs'[q] == Directory
      {
        if r == p || r !in fs {
          AboveChain(q, r, p);
        }
      }
    }
  }

  lemma AboveChain(q: Place, r: Place, p: Place)
    requires Above(q, r) && (r == p || UpTo(r, Parent(p)))
    ensures Above(q, p) && q != p
  {
  }

  /** After a successful application every claimed place holds its last target,
      and files at unclaimed places are untouched. */
  lemma {:induction false} ApplyLinks(fs: Files, specs: seq<LinkSpec>)
    requires Tree(fs) && Apply(fs, specs).Some?
    ensures var fs' := Apply(fs, specs).value;
      && Tree(fs')
      && (forall p :: LastTarget(specs, p).Some? ==> p in fs' && fs'[p] == Link(LastTarget(specs, p).value))
      && (forall p :: p in fs && LastTarget(specs, p).None? ==> p in fs' && fs'[p] == fs[p])
      && (forall i :: 0 <= i < |specs| ==> specs[i].target != "")
  {
    hide Tree, CreateLink;
    if specs != [] {
      var front, last := specs[..|specs| - 1], specs[|specs| - 1];
      ApplyLinks(fs, front);
      var mid := Apply(fs, front).value;
      CreateLinkTree(mid, last.target, last.place);
      CreateLinkKeeps(mid, last.target, last.place);
      TargetNotEmpty(mid, last.target, last.place);
    }
  }

  lemma TargetNotEmpty(fs: Files, target: string, p: Place)
    requires Tree(fs) && CreateLink(fs, target, p).Some?
    ensures target != ""
  {
  }

  /** In a finished tree, re-making a link only re-points it. */
  lemma RemakeLink(fs: Files, target: string, p: Place)
    requires Tree(fs) && p in fs && fs[p].Link? && target != ""
    ensures CreateLink(fs, target, p) == Some(fs[p := Link(target)])
  {
    if fs[p] == Link(target) {
      assert fs[p := Link(target)] == fs;
    } else {
      WaysToParent(p);
      MakeDirsIdle(fs, Parent(p));
    }
  }

  /** The finished tree with some of its links re-pointed by a prefix of the run. */
  ghost predicate Repointed(done: Files, fs: Files, specs: seq<LinkSpec>) {
    && fs.Keys == done.Keys
    && forall p :: p in done ==>
         fs[p] == match LastTarget(specs, p) case Some(target) => Link(target) case None => done[p]
  }

  lemma RepointStep(done: Files, fs: Files, specs: seq<LinkSpec>, spec: LinkSpec)
    requires Repointed(done, fs, specs) && spec.place in done && done[spec.place].Link?
    ensures spec.place in fs && fs[spec.place].Link?
    ensures Repointed(done, fs[spec.place := Link(spec.target)], specs + [spec])
  {
    assert (specs + [spec])[..|specs|] == specs;
  }

  lemma {:induction false} ReapplyPrefix(done: Files, specs: seq<LinkSpec>, n: nat)
    requires Tree(done) && n <= |specs|
    requires forall i :: 0 <= i < |specs| ==>
      specs[i].place in done && done[specs[i].place].Link? && specs[i].target != ""
    ensures Apply(done, specs[..n]).Some?
    ensures Repointed(done, Apply(done, specs[..n]).value, specs[..n])
    ensures Tree(Apply(done, specs[..n]).value)
  {
    hide Tree, CreateLink, Repointed;
    if n > 0 {
      ReapplyPrefix(done, specs, n - 1);
      var spec := specs[n - 1];
      assert specs[..n][..n - 1] == specs[..n - 1] && specs[..n] == specs[..n - 1] + [spec];
      var fs := Apply(done, specs[..n - 1]).value;
      RepointStep(done, fs, specs[..n - 1], spec);
      RemakeLink(fs, spec.target, spec.place);
      CreateLinkTree(fs, spec.target, spec.place);
    } else {
      RepointNone(done, specs);
    }
  }

  lemma RepointNone(done: Files, specs: seq<LinkSpec>)
    ensures Apply(done, specs[..0]) == Some(done) && Repointed(done, done, specs[..0])
  {
  }

  lemma {:induction false} Claimed(specs: seq<LinkSpec>, i: nat)
    requires i < |specs|
    ensures LastTarget(specs, specs[i].place).Some?
    decreases |specs|
  {
    if i < |specs| - 1 {
      Claimed(specs[..|specs| - 1], i);
    }
  }

  /** Applying the specifications a second time changes nothing. */
  lemma ApplyTwice(fs: Files, specs: seq<LinkSpec>)
    requires Tree(fs) && Apply(fs, specs).Some?
    ensures Apply(Apply(fs, specs).value, specs) == Apply(fs, specs)
  {
    var done := Apply(fs, specs).value;
    ApplyLinks(fs, specs);
    forall i | 0 <= i < |specs|
      ensures specs[i].place in done && done[specs[i].place].Link?
    {
      Claimed(specs, i);
    }
    ReapplyPrefix(done, specs, |specs|);
    assert specs[..|specs|] == specs;
    assert Apply(done, specs).value == done;
  }

  /** Running the hook again on a container it has prepared changes nothing. */
  lemma ExecuteTwice(fs: Files, root: string, texts: seq<string>)
    requires Tree(fs) && Executed(fs, root, texts).Some?
    ensures Executed(Executed(fs, root, texts).value, root, texts) == Executed(fs, root, texts)
  {
    ApplyTwice(fs, DecodeAll(root, FirstOccurrences(texts)).value);
  }

  /** Whatever the system answers the two times, a second run that succeeds leaves
      what the first one did. */
  lemma RunsTwice(fs: Files, root: string, first: string -> Calls, second: string -> Calls, texts: seq<string>)
    requires Tree(fs) && ExecutedWith(fs, root, first, texts).Some?
    requires ExecutedWith(ExecutedWith(fs, root, first, texts).value, root, second, texts).Some?
    ensures ExecutedWith(ExecutedWith(fs, root, first, texts).value, root, second, texts)
      == ExecutedWith(fs, root, first, texts)
  {
    hide Executed, ExecutedWith, Tree;
    SuccessIsExecuted(fs, root, first, texts);
    SuccessIsExecuted(ExecutedWith(fs, root, first, texts).value, root, second, texts);
    ExecuteTwice(fs, root, texts);
  }
}
