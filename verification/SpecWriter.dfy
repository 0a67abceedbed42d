/** The atomic spec writer of internal/cdi/writer.go as a step protocol: any
    number of writers and readers interleave over inodes and directory entries,
    and any step may fail or be the last before a crash. */
module SpecWriter {
  import opened Strings

  type Bytes = seq<int>

  datatype Inode = Inode(data: Bytes, mode: nat)

  const TEMP_MODE: nat := 0x180 // octal 0600
  const SPEC_MODE: nat := 0x1A4 // octal 0644

  /** One call of Write: its rendered spec and its private temp-file name. */
  datatype Job = Job(buffer: Bytes, temp: string)

  /** The target path with the file initially there, and the calls to come. */
  datatype Setup = Setup(target: string, initial: Option<Inode>, jobs: map<nat, Job>)

  ghost predicate ValidSetup(c: Setup) {
    && (forall w :: w in c.jobs ==> c.jobs[w].temp != c.target)
    && (forall v, w :: v in c.jobs && w in c.jobs && v != w ==> c.jobs[v].temp != c.jobs[w].temp)
  }

  datatype Pc =
    | MakingDir | Creating | Writing | Chmodding | Syncing | Closing | Renaming
    | FlushingDir | Removing | Succeeded | Failed(removed: bool) | Crashed

  /** `ino` is the temp file's inode once created. */
  datatype Writer = Writer(pc: Pc, ino: nat, committed: bool)

  datatype Reader = Waiting | Reading(ino: nat, got: Bytes) | Finished(ino: nat, got: Bytes)

  /** Inode 0 is the file initially at the target; `published` lists the writers
      whose rename took effect, in order. */
  datatype World = World(
    inodes: map<nat, Inode>, names: map<string, nat>, next: nat,
    writers: map<nat, Writer>, readers: map<nat, Reader>, published: seq<nat>)

  ghost predicate Initial(c: Setup, s: World) {
    && s.inodes == (if c.initial.Some? then map[0 := c.initial.value] else map[])
    && s.names == (if c.initial.Some? then map[c.target := 0] else map[])
    && s.next == 1 && s.published == []
    && s.writers.Keys == c.jobs.Keys && (forall w :: w in s.writers ==> s.writers[w] == Writer(MakingDir, 0, false))
    && (forall r :: r in s.readers ==> s.readers[r] == Waiting)
  }

  datatype WriterOp =
    | MkdirOk | CreateOk | Append(n: nat) | AppendDone | ChmodOk | SyncOk | CloseOk | RenameOk
    | FlushDir | RemoveOk | RemoveFails | Fail | Crash

  datatype ReaderOp = Open | Read(n: nat) | Finish

  datatype Label = W(w: nat, op: WriterOp) | R(r: nat, rop: ReaderOp)

  predicate WriterEnabled(c: Setup, s: World, w: nat, op: WriterOp) {
    w in s.writers && w in c.jobs &&
    var pc, ino := s.writers[w].pc, s.writers[w].ino;
    match op
    case MkdirOk => pc == MakingDir
    case CreateOk => pc == Creating && c.jobs[w].temp !in s.names
    case Append(n) => pc == Writing && ino in s.inodes && 0 < n && |s.inodes[ino].data| + n <= |c.jobs[w].buffer|
    case AppendDone => pc == Writing && ino in s.inodes && |s.inodes[ino].data| == |c.jobs[w].buffer|
    case ChmodOk => pc == Chmodding && ino in s.inodes
    case SyncOk => pc == Syncing
    case CloseOk => pc == Closing
    case RenameOk => pc == Renaming && c.jobs[w].temp in s.names
    case FlushDir => pc == FlushingDir
    case RemoveOk => pc == Removing
    case RemoveFails => pc == Removing
    case Fail =>
      pc == MakingDir || pc == Creating || pc == Writing || pc == Chmodding || pc == Syncing || pc == Closing
      || pc == Renaming
    case Crash => pc != Succeeded && !pc.Failed? && pc != Crashed
  }

  function WriterApply(c: Setup, s: World, w: nat, op: WriterOp): World
    requires WriterEnabled(c, s, w, op)
  {
    var me, job := s.writers[w], c.jobs[w];
    match op
    case MkdirOk => s.(writers := s.writers[w := me.(pc := Creating)])
    case CreateOk =>
      s.(inodes := s.inodes[s.next := Inode([], TEMP_MODE)], names := s.names[job.temp := s.next],
         next := s.next + 1, writers := s.writers[w := me.(pc := Writing, ino := s.next)])
    case Append(n) =>
      var f := s.inodes[me.ino];
      s.(inodes := s.inodes[me.ino := f.(data := f.data + job.buffer[|f.data|..|f.data| + n])])
    case AppendDone => s.(writers := s.writers[w := me.(pc := Chmodding)])
    case ChmodOk =>
      s.(inodes := s.inodes[me.ino := s.inodes[me.ino].(mode := SPEC_MODE)],
         writers := s.writers[w := me.(pc := Syncing)])
    case SyncOk => s.(writers := s.writers[w := me.(pc := Closing)])
    case CloseOk => s.(writers := s.writers[w := me.(pc := Renaming)])
    case RenameOk =>
      s.(names := (s.names - {job.temp})[c.target := s.names[job.temp]], published := s.published + [w],
         writers := s.writers[w := me.(pc := FlushingDir, committed := true)])
    case FlushDir => s.(writers := s.writers[w := me.(pc := Succeeded)])
    case RemoveOk => s.(names := s.names - {job.temp}, writers := s.writers[w := me.(pc := Failed(true))])
    case RemoveFails => s.(writers := s.writers[w := me.(pc := Failed(false))])
    case Fail =>
      var beforeTemp := me.pc == MakingDir || me.pc == Creating;
      s.(writers := s.writers[w := me.(pc := if beforeTemp then Failed(true) else Removing)])
    case Crash => s.(writers := s.writers[w := me.(pc := Crashed)])
  }

  predicate ReaderEnabled(c: Setup, s: World, r: nat, op: ReaderOp) {
    r in s.readers &&
    match op
    case Open => s.readers[r] == Waiting && c.target in s.names
    case Read(n) =>
      && s.readers[r].Reading? && s.readers[r].ino in s.inodes
      && 0 < n && |s.readers[r].got| + n <= |s.inodes[s.readers[r].ino].data|
    case Finish =>
      && s.readers[r].Reading? && s.readers[r].ino in s.inodes
      && |s.readers[r].got| >= |s.inodes[s.readers[r].ino].data|
  }

  function ReaderApply(c: Setup, s: World, r: nat, op: ReaderOp): World
    requires ReaderEnabled(c, s, r, op)
  {
    var me := s.readers[r];
    match op
    case Open => s.(readers := s.readers[r := Reading(s.names[c.target], [])])
    case Read(n) =>
      s.(readers := s.readers[r := Reading(me.ino, me.got + s.inodes[me.ino].data[|me.got|..|me.got| + n])])
    case Finish => s.(readers := s.readers[r := Finished(me.ino, me.got)])
  }

  predicate Enabled(c: Setup, s: World, l: Label) {
    match l
    case W(w, op) => WriterEnabled(c, s, w, op)
    case R(r, op) => ReaderEnabled(c, s, r, op)
  }

  function Apply(c: Setup, s: World, l: Label): World
    requires Enabled(c, s, l)
  {
    match l
    case W(w, op) => WriterApply(c, s, w, op)
    case R(r, op) => ReaderApply(c, s, r, op)
  }

  function Steps(c: Setup, s: World, labels: seq<Label>): Option<World>
    decreases labels
  {
    if labels == [] then Some(s)
    else if Enabled(c, s, labels[0]) then Steps(c, Apply(c, s, labels[0]), labels[1..])
    else None
  }

  predicate Created(w: Writer) {
    w.ino > 0
  }

  /** The temp name is bound to the writer's own file in these phases. */
  predicate OwnsTemp(pc: Pc) {
    pc == Writing || pc == Chmodding || pc == Syncing || pc == Closing || pc == Renaming || pc == Removing
  }

  predicate Complete(w: Writer) {
    w.pc == Syncing || w.pc == Closing || w.pc == Renaming || w.committed
  }

  /** Where a writer's file and temp name stand. */
  ghost predicate NamesOk(c: Setup, s: World, w: nat)
    requires w in s.writers && w in c.jobs
  {
    var me, temp := s.writers[w], c.jobs[w].temp;
    && (me.pc == MakingDir || me.pc == Creating ==> me.ino == 0)
    && (OwnsTemp(me.pc) || Complete(me) ==> Created(me))
    && (Created(me) ==> me.ino in s.inodes)
    && (OwnsTemp(me.pc) ==> temp in s.names && s.names[temp] == me.ino)
    && (me.pc == MakingDir || me.pc == Creating || me.committed || me.pc == Failed(true) ==> temp !in s.names)
    && (me.committed ==> me.pc == FlushingDir || me.pc == Succeeded || me.pc == Crashed)
    && (me.pc == FlushingDir || me.pc == Succeeded ==> me.committed)
  }

  /** What a writer has made of its file so far. */
  ghost predicate FileOk(c: Setup, s: World, w: nat)
    requires w in s.writers && w in c.jobs && NamesOk(c, s, w)
  {
    var me, job := s.writers[w], c.jobs[w];
    && (me.pc == Writing || me.pc == Chmodding ==> s.inodes[me.ino].mode == TEMP_MODE)
    && (me.pc == Writing ==> s.inodes[me.ino].data <= job.buffer)
    && (me.pc == Chmodding ==> s.inodes[me.ino].data == job.buffer)
    && (Complete(me) ==> s.inodes[me.ino] == Inode(job.buffer, SPEC_MODE))
  }

  ghost predicate WriterOk(c: Setup, s: World, w: nat)
    requires w in s.writers && w in c.jobs
  {
    NamesOk(c, s, w) && FileOk(c, s, w)
  }

  ghost predicate WritersOk(c: Setup, s: World) {
    && s.writers.Keys == c.jobs.Keys && s.next > 0
    && (forall ino :: ino in s.inodes ==> ino < s.next)
    && (forall w :: w in s.writers ==> WriterOk(c, s, w))
    && (forall v, w :: v in s.writers && w in s.writers && v != w && Created(s.writers[v]) && Created(s.writers[w])
          ==> s.writers[v].ino != s.writers[w].ino)
    && (c.initial.Some? ==> 0 in s.inodes && s.inodes[0] == c.initial.value)
  }

  /** A file readers may meet: the initial one, or a committed writer's. */
  ghost predicate Sealed(c: Setup, s: World, ino: nat) {
    (ino == 0 && c.initial.Some?) || exists w :: w in s.writers && s.writers[w].committed && s.writers[w].ino == ino
  }

  ghost predicate TargetOk(c: Setup, s: World) {
    && (forall w :: w in s.published ==> w in s.writers && s.writers[w].committed)
    && (forall w :: w in s.writers && s.writers[w].committed ==> w in s.published)
    && if s.published != [] then
         c.target in s.names && s.names[c.target] == s.writers[s.published[|s.published| - 1]].ino
       else if c.initial.Some? then c.target in s.names && s.names[c.target] == 0
       else c.target !in s.names
  }

  ghost predicate ReaderOk(c: Setup, s: World, r: nat)
    requires r in s.readers
  {
    match s.readers[r]
    case Waiting => true
    case Reading(ino, got) => Sealed(c, s, ino) && ino in s.inodes && got <= s.inodes[ino].data
    case Finished(ino, got) => Sealed(c, s, ino) && ino in s.inodes && got == s.inodes[ino].data
  }

  ghost predicate Inv(c: Setup, s: World) {
    WritersOk(c, s) && TargetOk(c, s) && forall r :: r in s.readers ==> ReaderOk(c, s, r)
  }

  /** What a step of writer `w` can touch: its own record, its own temp name, the
      target name, and its own unfinished file. */
  ghost predicate Touches(c: Setup, s: World, t: World, w: nat)
    requires w in s.writers && w in c.jobs
  {
    && w in t.writers && t.writers == s.writers[w := t.writers[w]] && t.readers == s.readers
    && (s.writers[w].committed ==> t.writers[w].committed)
    && TouchesFiles(s, t, w)
    && (forall name :: name != c.jobs[w].temp && name != c.target ==>
          (name in t.names <==> name in s.names) && (name in s.names ==> t.names[name] == s.names[name]))
  }

  ghost predicate TouchesFiles(s: World, t: World, w: nat)
    requires w in s.writers && w in t.writers
  {
    var ino, ino' := s.writers[w].ino, t.writers[w].ino;
    && s.next <= t.next
    && (ino' == ino || (ino == 0 && ino' == s.next < t.next))
    && (forall i :: i in t.inodes <==> i in s.inodes || (i == ino' && i > 0))
    && (forall i :: i in s.inodes && (i != ino' || i == 0 || s.writers[w].committed) ==> t.inodes[i] == s.inodes[i])
  }

  lemma StepTouchesFiles(c: Setup, s: World, w: nat, op: WriterOp)
    requires w in s.writers && w in c.jobs && NamesOk(c, s, w) && WriterEnabled(c, s, w, op)
    requires s.next > 0 && forall ino :: ino in s.inodes ==> ino < s.next
    ensures w in WriterApply(c, s, w, op).writers && TouchesFiles(s, WriterApply(c, s, w, op), w)
  {
  }

  lemma StepTouches(c: Setup, s: World, w: nat, op: WriterOp)
    requires WritersOk(c, s) && WriterEnabled(c, s, w, op)
    ensures Touches(c, s, WriterApply(c, s, w, op), w)
  {
    hide NamesOk, FileOk, TouchesFiles, WriterApply, WriterEnabled;
    EnabledKnown(c, s, w, op);
    assert WriterOk(c, s, w);
    StepTouchesFiles(c, s, w, op);
    StepTouchesNames(c, s, w, op);
  }

  lemma StepTouchesNames(c: Setup, s: World, w: nat, op: WriterOp)
    requires WriterEnabled(c, s, w, op)
    ensures var t := WriterApply(c, s, w, op);
      && w in t.writers && t.writers == s.writers[w := t.writers[w]] && t.readers == s.readers
      && (s.writers[w].committed ==> t.writers[w].committed)
      && (forall name :: name != c.jobs[w].temp && name != c.target ==>
            (name in t.names <==> name in s.names) && (name in s.names ==> t.names[name] == s.names[name]))
  {
  }

  lemma OtherWriterKept(c: Setup, s: World, t: World, w: nat, v: nat)
    requires ValidSetup(c) && WritersOk(c, s) && w in s.writers && v in s.writers && v != w
    requires Touches(c, s, t, w)
    ensures WriterOk(c, t, v)
    ensures Created(s.writers[v]) ==> s.writers[v].ino != t.writers[w].ino
  {
    assert WriterOk(c, s, v) && WriterOk(c, s, w);
  }

  /** Steps of the happy path, where the temp name is made and moved. */
  predicate Progresses(op: WriterOp) {
    op != Fail && op != Crash && op != RemoveOk && op != RemoveFails
  }

  lemma NamesKeptOnProgress(c: Setup, s: World, w: nat, op: WriterOp)
    requires w in s.writers && w in c.jobs && NamesOk(c, s, w) && c.jobs[w].temp != c.target
    requires s.next > 0 && WriterEnabled(c, s, w, op) && Progresses(op)
    ensures NamesOk(c, WriterApply(c, s, w, op), w)
  {
  }

  lemma NamesKeptOnFailure(c: Setup, s: World, w: nat, op: WriterOp)
    requires w in s.writers && w in c.jobs && NamesOk(c, s, w)
    requires WriterEnabled(c, s, w, op) && !Progresses(op)
    ensures NamesOk(c, WriterApply(c, s, w, op), w)
  {
  }

  lemma OwnNamesKept(c: Setup, s: World, w: nat, op: WriterOp)
    requires ValidSetup(c) && w in s.writers && w in c.jobs && NamesOk(c, s, w)
    requires s.next > 0 && WriterEnabled(c, s, w, op)
    ensures NamesOk(c, WriterApply(c, s, w, op), w)
  {
    hide NamesOk, WriterApply, WriterEnabled;
    if Progresses(op) {
      NamesKeptOnProgress(c, s, w, op);
    } else {
      NamesKeptOnFailure(c, s, w, op);
    }
  }

  lemma OwnFileKept(c: Setup, s: World, w: nat, op: WriterOp)
    requires w in s.writers && w in c.jobs && WriterOk(c, s, w) && WriterEnabled(c, s, w, op)
    requires NamesOk(c, WriterApply(c, s, w, op), w)
    ensures FileOk(c, WriterApply(c, s, w, op), w)
  {
  }

  lemma WritersKept(c: Setup, s: World, w: nat, op: WriterOp)
    requires ValidSetup(c) && WritersOk(c, s) && WriterEnabled(c, s, w, op)
    ensures WritersOk(c, WriterApply(c, s, w, op))
  {
    hide WriterApply, WriterEnabled, NamesOk, FileOk, ValidSetup;
    var t := WriterApply(c, s, w, op);
    assert w in s.writers && w in c.jobs && WriterOk(c, s, w) by { EnabledKnown(c, s, w, op); }
    CreatedExists(c, s, w);
    StepTouches(c, s, w, op);
    OwnNamesKept(c, s, w, op);
    OwnFileKept(c, s, w, op);
    forall v | v in t.writers
      ensures WriterOk(c, t, v)
    {
      if v != w {
        OtherWriterKept(c, s, t, w, v);
      }
    }
    forall v | v in s.writers && v != w
      ensures Created(s.writers[v]) ==> s.writers[v].ino != t.writers[w].ino
    {
      OtherWriterKept(c, s, t, w, v);
    }
  }

  lemma CreatedExists(c: Setup, s: World, w: nat)
    requires w in s.writers && w in c.jobs && NamesOk(c, s, w)
    ensures Created(s.writers[w]) ==> s.writers[w].ino in s.inodes
  {
  }

  lemma EnabledKnown(c: Setup, s: World, w: nat, op: WriterOp)
    requires WriterEnabled(c, s, w, op)
    ensures w in s.writers && w in c.jobs
  {
  }

  /** Only a rename touches the target's directory entry. */
  lemma TargetUntouched(c: Setup, s: World, w: nat, op: WriterOp)
    requires ValidSetup(c) && WriterEnabled(c, s, w, op) && op != RenameOk
    ensures var t := WriterApply(c, s, w, op);
      && t.published == s.published && t.writers[w].committed == s.writers[w].committed
      && (c.target in t.names <==> c.target in s.names)
      && (c.target in s.names ==> t.names[c.target] == s.names[c.target])
  {
    assert c.jobs[w].temp != c.target;
  }

  lemma TargetRenamed(c: Setup, s: World, w: nat)
    requires WriterEnabled(c, s, w, RenameOk) && NamesOk(c, s, w)
    ensures var t := WriterApply(c, s, w, RenameOk);
      && t.published == s.published + [w] && t.writers[w].committed
      && (forall v :: v in t.published <==> v in s.published || v == w)
      && c.target in t.names && t.names[c.target] == t.writers[w].ino
  {
  }

  lemma TargetKept(c: Setup, s: World, w: nat, op: WriterOp)
    requires ValidSetup(c) && WritersOk(c, s) && TargetOk(c, s) && WriterEnabled(c, s, w, op)
    ensures TargetOk(c, WriterApply(c, s, w, op))
  {
    hide WriterApply, WriterEnabled, ValidSetup, NamesOk, FileOk;
    EnabledKnown(c, s, w, op);
    assert WriterOk(c, s, w);
    CommittedExists(c, s, w);
    StepTouches(c, s, w, op);
    if op == RenameOk {
      TargetRenamed(c, s, w);
    } else {
      TargetUntouched(c, s, w, op);
    }
  }

  lemma CommittedExists(c: Setup, s: World, w: nat)
    requires w in s.writers && w in c.jobs && NamesOk(c, s, w)
    ensures s.writers[w].committed ==> Created(s.writers[w])
  {
  }

  /** Nobody writes to a file a reader may have open. */
  lemma SealedKept(c: Setup, s: World, w: nat, op: WriterOp, ino: nat)
    requires WritersOk(c, s) && WriterEnabled(c, s, w, op) && Sealed(c, s, ino)
    ensures var t := WriterApply(c, s, w, op);
      Sealed(c, t, ino) && ino in s.inodes && ino in t.inodes && t.inodes[ino] == s.inodes[ino]
  {
    hide WriterApply, WriterEnabled;
    var t := WriterApply(c, s, w, op);
    EnabledKnown(c, s, w, op);
    StepTouches(c, s, w, op);
    assert WriterOk(c, s, w);
    if !(ino == 0 && c.initial.Some?) {
      var v :| v in s.writers && s.writers[v].committed && s.writers[v].ino == ino;
      assert WriterOk(c, s, v) && t.writers[v].committed && t.writers[v].ino == ino;
    }
  }

  lemma WriterStepKeepsInv(c: Setup, s: World, w: nat, op: WriterOp)
    requires ValidSetup(c) && Inv(c, s) && WriterEnabled(c, s, w, op)
    ensures Inv(c, WriterApply(c, s, w, op))
  {
    hide WriterApply, WriterEnabled, WritersOk, TargetOk, Sealed, ValidSetup, Touches;
    var t := WriterApply(c, s, w, op);
    WritersKept(c, s, w, op);
    TargetKept(c, s, w, op);
    StepTouchesNames(c, s, w, op);
    forall r | r in t.readers
      ensures ReaderOk(c, t, r)
    {
      assert ReaderOk(c, s, r);
      if s.readers[r] != Waiting {
        SealedKept(c, s, w, op, s.readers[r].ino);
      }
    }
  }

  lemma TargetSealed(c: Setup, s: World)
    requires WritersOk(c, s) && TargetOk(c, s) && c.target in s.names
    ensures var ino := s.names[c.target];
      Sealed(c, s, ino) && ino in s.inodes
    ensures s.inodes[s.names[c.target]] ==
      if s.published == [] then c.initial.value
      else Inode(c.jobs[s.published[|s.published| - 1]].buffer, SPEC_MODE)
  {
    if s.published != [] {
      var w := s.published[|s.published| - 1];
      assert w in s.published && WriterOk(c, s, w);
    }
  }

  lemma ReaderStepKeepsInv(c: Setup, s: World, r: nat, op: ReaderOp)
    requires Inv(c, s) && ReaderEnabled(c, s, r, op)
    ensures Inv(c, ReaderApply(c, s, r, op))
  {
    hide WritersOk, TargetOk, Sealed;
    var t := ReaderApply(c, s, r, op);
    assert ReaderOk(c, s, r);
    ReadersTouchNothing(c, s, t);
    if op == Open {
      TargetSealed(c, s);
    }
    forall q | q in t.readers && q != r
      ensures ReaderOk(c, t, q)
    {
      assert ReaderOk(c, s, q);
    }
  }

  lemma ReadersTouchNothing(c: Setup, s: World, t: World)
    requires WritersOk(c, s) && TargetOk(c, s) && t == s.(readers := t.readers)
    ensures WritersOk(c, t) && TargetOk(c, t)
    ensures forall ino :: Sealed(c, s, ino) ==> Sealed(c, t, ino)
  {
    forall w | w in t.writers
      ensures WriterOk(c, t, w)
    {
      assert WriterOk(c, s, w);
    }
  }

  lemma {:induction false} StepsKeepInv(c: Setup, s: World, labels: seq<Label>)
    requires ValidSetup(c) && Inv(c, s) && Steps(c, s, labels).Some?
    ensures Inv(c, Steps(c, s, labels).value)
    decreases labels
  {
    hide Inv, ValidSetup, WriterEnabled, WriterApply, ReaderEnabled, ReaderApply;
    if labels != [] {
      match labels[0] {
        case W(w, op) => WriterStepKeepsInv(c, s, w, op);
        case R(r, op) => ReaderStepKeepsInv(c, s, r, op);
      }
      StepsKeepInv(c, Apply(c, s, labels[0]), labels[1..]);
    }
  }

  lemma InitialInv(c: Setup, s: World)
    requires ValidSetup(c) && Initial(c, s)
    ensures Inv(c, s)
  {
    forall w | w in s.writers
      ensures WriterOk(c, s, w)
    {
      assert s.writers[w] == Writer(MakingDir, 0, false) && c.jobs[w].temp != c.target;
    }
  }

  ghost predicate Run(c: Setup, s0: World, labels: seq<Label>, s: World) {
    ValidSetup(c) && Initial(c, s0) && Steps(c, s0, labels) == Some(s)
  }

  /** A file mode by its octal digits. */
  function Mode(user: nat, group: nat, other: nat): nat {
    64 * user + 8 * group + other
  }

  /** Every call but the last flush may fail, a crash may come at any point of a
      Write, and giving up removes the temp file, unless that fails too. */
  lemma FailurePoints(c: Setup, s: World, w: nat)
    requires w in s.writers && w in c.jobs
    ensures var pc := s.writers[w].pc;
      && (WriterEnabled(c, s, w, Crash) <==> pc != Succeeded && !pc.Failed? && pc != Crashed)
      && (WriterEnabled(c, s, w, Fail) <==> WriterEnabled(c, s, w, Crash) && pc != FlushingDir && pc != Removing)
      && (pc == Removing ==>
            && WriterEnabled(c, s, w, RemoveOk) && WriterEnabled(c, s, w, RemoveFails)
            && WriterApply(c, s, w, RemoveOk).names == s.names - {c.jobs[w].temp}
            && WriterApply(c, s, w, RemoveOk).writers[w].pc == Failed(true)
            && WriterApply(c, s, w, RemoveFails).names == s.names
            && WriterApply(c, s, w, RemoveFails).writers[w].pc == Failed(false))
      && (WriterEnabled(c, s, w, Fail) ==>
            var next := WriterApply(c, s, w, Fail).writers[w].pc;
            next == if pc == MakingDir || pc == Creating then Failed(true) else Removing)
  {
  }

  /** However writers interleave, fail and crash, a reader that read to the end
      got the initial file or one writer's complete spec with mode 0644, even if
      the target was replaced while it was reading. */
  lemma ReadersSeeWholeSpecs(c: Setup, s0: World, labels: seq<Label>, s: World, r: nat)
    requires Run(c, s0, labels, s) && r in s.readers && s.readers[r].Finished?
    ensures s.readers[r].ino in s.inodes
    ensures var file := s.inodes[s.readers[r].ino];
      && s.readers[r].got == file.data
      && (c.initial == Some(file)
          || exists w :: w in s.published && w in c.jobs && file == Inode(c.jobs[w].buffer, Mode(6, 4, 4)))
  {
    InitialInv(c, s0);
    StepsKeepInv(c, s0, labels);
    assert ReaderOk(c, s, r);
    var ino := s.readers[r].ino;
    if !(ino == 0 && c.initial.Some?) {
      var w :| w in s.writers && s.writers[w].committed && s.writers[w].ino == ino;
      assert WriterOk(c, s, w) && w in s.published;
    }
  }

  /** At every moment the target is the complete spec of the last writer whose
      rename took effect, or still the initial file if there is none. */
  lemma LastRenameWins(c: Setup, s0: World, labels: seq<Label>, s: World)
    requires Run(c, s0, labels, s)
    ensures c.target in s.names <==> c.initial.Some? || s.published != []
    ensures forall w :: w in s.published ==> w in c.jobs
    ensures c.target in s.names ==> s.names[c.target] in s.inodes
    ensures c.target in s.names && s.published == [] ==> c.initial == Some(s.inodes[s.names[c.target]])
    ensures s.published != [] ==>
      s.inodes[s.names[c.target]] == Inode(c.jobs[s.published[|s.published| - 1]].buffer, Mode(6, 4, 4))
  {
    InitialInv(c, s0);
    StepsKeepInv(c, s0, labels);
    if c.target in s.names {
      TargetSealed(c, s);
    }
  }

  /** A Write that reports success was published, one that reports failure was
      not; either way its temp file is gone, unless removing it failed. */
  lemma OutcomesAreHonest(c: Setup, s0: World, labels: seq<Label>, s: World, w: nat)
    requires Run(c, s0, labels, s) && w in s.writers
    ensures w in c.jobs
    ensures s.writers[w].pc == Succeeded ==> w in s.published && c.jobs[w].temp !in s.names
    ensures s.writers[w].pc.Failed? ==> w !in s.published
    ensures s.writers[w].pc == Failed(true) ==> c.jobs[w].temp !in s.names
  {
    InitialInv(c, s0);
    StepsKeepInv(c, s0, labels);
    assert WriterOk(c, s, w);
  }

  /** Until its mode is set, a spec being written is its owner's alone. */
  lemma TempIsPrivate(c: Setup, s0: World, labels: seq<Label>, s: World, w: nat)
    requires Run(c, s0, labels, s) && w in s.writers && (s.writers[w].pc == Writing || s.writers[w].pc == Chmodding)
    ensures s.writers[w].ino in s.inodes && s.inodes[s.writers[w].ino].mode == Mode(6, 0, 0)
  {
    InitialInv(c, s0);
    StepsKeepInv(c, s0, labels);
    assert WriterOk(c, s, w);
  }

  predicate SameFile(s: World, t: World, ino: nat) {
    ino in s.inodes && ino in t.inodes && t.inodes[ino] == s.inodes[ino]
  }

  /** No step but a rename, failing and crashing steps included, changes which
      file the target names or what that file holds. */
  lemma OnlyRenameChangesTarget(c: Setup, s: World, w: nat, op: WriterOp)
    requires ValidSetup(c) && Inv(c, s) && WriterEnabled(c, s, w, op) && op != RenameOk
    ensures var t := WriterApply(c, s, w, op);
      && (c.target in t.names <==> c.target in s.names)
      && (c.target in s.names ==> t.names[c.target] == s.names[c.target] && SameFile(s, t, s.names[c.target]))
  {
    hide WriterApply, WriterEnabled;
    TargetUntouched(c, s, w, op);
    if c.target in s.names {
      TargetSealed(c, s);
      SealedKept(c, s, w, op, s.names[c.target]);
    }
  }

  /** This writer is on its way to giving up, or has given up. */
  predicate GivesUp(s: World, w: nat) {
    w in s.writers && (s.writers[w].pc == Removing || s.writers[w].pc.Failed?)
  }

  lemma OnlyFailGivesUp(c: Setup, s: World, l: Label, w: nat)
    requires Enabled(c, s, l) && !GivesUp(s, w) && l != W(w, Fail)
    ensures !GivesUp(Apply(c, s, l), w)
  {
  }

  /** A Write fails only where some call of its own has failed. */
  lemma {:induction false} FailureHasACause(c: Setup, s: World, labels: seq<Label>, w: nat)
    requires Steps(c, s, labels).Some? && !GivesUp(s, w) && GivesUp(Steps(c, s, labels).value, w)
    ensures W(w, Fail) in labels
    decreases labels
  {
    hide Enabled, Apply, GivesUp;
    if labels != [] && labels[0] != W(w, Fail) {
      OnlyFailGivesUp(c, s, labels[0], w);
      FailureHasACause(c, Apply(c, s, labels[0]), labels[1..], w);
      assert labels == [labels[0]] + labels[1..];
    }
  }

  /** In every run, a Write of which no call failed has not failed. */
  lemma FailsOnlyByFailure(c: Setup, s0: World, labels: seq<Label>, s: World, w: nat)
    requires Run(c, s0, labels, s) && w in s.writers && s.writers[w].pc.Failed?
    ensures W(w, Fail) in labels
  {
    assert !GivesUp(s0, w);
    FailureHasACause(c, s0, labels, w);
  }

  /** The writer can still succeed. */
  predicate OnCourse(s: World, w: nat) {
    w in s.writers && !GivesUp(s, w) && s.writers[w].pc != Crashed
  }

  /** The call Write makes next, if none fails. */
  function NextCall(c: Setup, s: World, w: nat): WriterOp
    requires w in s.writers && w in c.jobs
    requires OnCourse(s, w) && s.writers[w].pc != Succeeded
    requires s.writers[w].pc == Writing ==> s.writers[w].ino in s.inodes
    requires s.writers[w].pc == Writing ==> |s.inodes[s.writers[w].ino].data| <= |c.jobs[w].buffer|
  {
    match s.writers[w].pc
    case MakingDir => MkdirOk
    case Creating => CreateOk
    case Writing =>
      var left := |c.jobs[w].buffer| - |s.inodes[s.writers[w].ino].data|;
      if left == 0 then AppendDone else Append(left)
    case Chmodding => ChmodOk
    case Syncing => SyncOk
    case Closing => CloseOk
    case Renaming => RenameOk
    case FlushingDir => FlushDir
  }

  /** How many calls are left. */
  function CallsLeft(c: Setup, s: World, w: nat): nat
    requires w in s.writers && w in c.jobs
  {
    match s.writers[w].pc
    case MakingDir => 9
    case Creating => 8
    case Writing =>
      var ino := s.writers[w].ino;
      if ino in s.inodes && |s.inodes[ino].data| == |c.jobs[w].buffer| then 6 else 7
    case Chmodding => 5
    case Syncing => 4
    case Closing => 3
    case Renaming => 2
    case FlushingDir => 1
    case _ => 0
  }

  /** What a next call achieves. */
  ghost predicate Advances(c: Setup, s: World, t: World, w: nat, op: WriterOp)
    requires w in s.writers && w in c.jobs
  {
    && OnCourse(t, w) && CallsLeft(c, t, w) < CallsLeft(c, s, w)
    && t.published == s.published + (if op == RenameOk then [w] else [])
    && t.writers[w].committed == (s.writers[w].committed || op == RenameOk)
    && (op == RenameOk ==> !s.writers[w].committed)
  }

  lemma WritingAdvances(c: Setup, s: World, w: nat)
    requires w in s.writers && w in c.jobs && s.writers[w].pc == Writing && s.writers[w].ino in s.inodes
    requires s.inodes[s.writers[w].ino].data <= c.jobs[w].buffer
    ensures var op := NextCall(c, s, w);
      WriterEnabled(c, s, w, op) && Progresses(op) && Advances(c, s, WriterApply(c, s, w, op), w, op)
  {
  }

  lemma OthersAdvance(c: Setup, s: World, w: nat)
    requires w in s.writers && w in c.jobs && NamesOk(c, s, w)
    requires OnCourse(s, w) && s.writers[w].pc != Succeeded && s.writers[w].pc != Writing
    ensures var op := NextCall(c, s, w);
      WriterEnabled(c, s, w, op) && Progresses(op) && Advances(c, s, WriterApply(c, s, w, op), w, op)
  {
  }

  lemma NextCallWorks(c: Setup, s: World, w: nat)
    requires ValidSetup(c) && Inv(c, s) && OnCourse(s, w) && s.writers[w].pc != Succeeded
    ensures w in c.jobs
    ensures s.writers[w].pc == Writing ==>
      s.writers[w].ino in s.inodes && |s.inodes[s.writers[w].ino].data| <= |c.jobs[w].buffer|
    ensures var op := NextCall(c, s, w);
      WriterEnabled(c, s, w, op) && Progresses(op) && Advances(c, s, WriterApply(c, s, w, op), w, op)
  {
    hide WriterEnabled, WriterApply, NextCall, CallsLeft, Advances, ValidSetup, TargetOk;
    assert WriterOk(c, s, w);
    if s.writers[w].pc == Writing {
      WritingAdvances(c, s, w);
    } else {
      OthersAdvance(c, s, w);
    }
  }

  /** The calls of one writer, none of which fails. */
  predicate Undisturbed(labels: seq<Label>, w: nat) {
    forall l :: l in labels ==> l.W? && l.w == w && Progresses(l.op)
  }

  lemma {:induction false} UndisturbedRun(c: Setup, s: World, w: nat) returns (labels: seq<Label>)
    requires ValidSetup(c) && Inv(c, s) && OnCourse(s, w)
    ensures Undisturbed(labels, w) && Steps(c, s, labels).Some?
    ensures var t := Steps(c, s, labels).value;
      && Inv(c, t) && w in t.writers && t.writers[w].pc == Succeeded
      && t.published == s.published + (if s.writers[w].committed then [] else [w])
    decreases if w in s.writers && w in c.jobs then CallsLeft(c, s, w) else 0
  {
    hide Inv, ValidSetup, WriterOk, WriterEnabled, WriterApply, NextCall, CallsLeft;
    if s.writers[w].pc == Succeeded {
      SuccessIsCommitted(c, s, w);
      labels := [];
    } else {
      NextCallWorks(c, s, w);
      var op := NextCall(c, s, w);
      var t := WriterApply(c, s, w, op);
      WriterStepKeepsInv(c, s, w, op);
      var rest := UndisturbedRun(c, t, w);
      labels := [W(w, op)] + rest;
      assert labels[1..] == rest;
    }
  }

  lemma SuccessIsCommitted(c: Setup, s: World, w: nat)
    requires Inv(c, s) && w in s.writers && s.writers[w].pc == Succeeded
    ensures s.writers[w].committed
  {
    assert WriterOk(c, s, w);
  }

  /** From every state of every run, a Write that has neither failed nor crashed can
      still run to success without help; if it was not published before, the target
      then is its complete spec, and its temp file is gone. */
  lemma WriteCanSucceed(c: Setup, s0: World, before: seq<Label>, s: World, w: nat)
    returns (labels: seq<Label>, t: World)
    requires Run(c, s0, before, s) && OnCourse(s, w)
    ensures Undisturbed(labels, w) && Steps(c, s, labels) == Some(t)
    ensures w in t.writers && w in c.jobs && t.writers[w].pc == Succeeded && c.jobs[w].temp !in t.names
    ensures w !in s.published ==>
      && c.target in t.names && t.names[c.target] in t.inodes
      && t.inodes[t.names[c.target]] == Inode(c.jobs[w].buffer, Mode(6, 4, 4))
  {
    hide Undisturbed, WriterEnabled, WriterApply;
    InitialInv(c, s0);
    StepsKeepInv(c, s0, before);
    labels := UndisturbedRun(c, s, w);
    t := Steps(c, s, labels).value;
    assert WriterOk(c, t, w);
    assert s.writers[w].committed <==> w in s.published;
    if w !in s.published {
      TargetSealed(c, t);
    }
  }

  /** A reader that finds the target can read it to the end. */
  lemma ReaderCanFinish(c: Setup, s0: World, before: seq<Label>, s: World, r: nat)
    returns (labels: seq<Label>, t: World)
    requires Run(c, s0, before, s) && r in s.readers && s.readers[r] == Waiting && c.target in s.names
    ensures Steps(c, s, labels) == Some(t) && r in t.readers && s.names[c.target] in s.inodes
    ensures t == s.(readers := t.readers)
    ensures t.readers[r] == Finished(s.names[c.target], s.inodes[s.names[c.target]].data)
  {
    InitialInv(c, s0);
    StepsKeepInv(c, s0, before);
    TargetSealed(c, s);
    labels, t := ReadThrough(c, s, r);
  }

  lemma ReadThrough(c: Setup, s: World, r: nat) returns (labels: seq<Label>, t: World)
    requires r in s.readers && s.readers[r] == Waiting && c.target in s.names && s.names[c.target] in s.inodes
    ensures Steps(c, s, labels) == Some(t) && t == s.(readers := t.readers) && r in t.readers
    ensures t.readers[r] == Finished(s.names[c.target], s.inodes[s.names[c.target]].data)
  {
    hide Steps;
    var n := |s.inodes[s.names[c.target]].data|;
    var s1 := Apply(c, s, R(r, Open));
    var s2 := if n == 0 then s1 else Apply(c, s1, R(r, Read(n)));
    t := Apply(c, s2, R(r, Finish));
    StepsNone(c, t);
    StepsCons(c, s2, R(r, Finish), []);
    labels := [R(r, Finish)];
    assert [R(r, Finish)] + [] == labels;
    if n > 0 {
      StepsCons(c, s1, R(r, Read(n)), labels);
      labels := [R(r, Read(n))] + labels;
    }
    StepsCons(c, s, R(r, Open), labels);
    labels := [R(r, Open)] + labels;
  }

  lemma StepsNone(c: Setup, s: World)
    ensures Steps(c, s, []) == Some(s)
  {
  }

  lemma StepsCons(c: Setup, s: World, l: Label, rest: seq<Label>)
    requires Enabled(c, s, l)
    ensures Steps(c, s, [l] + rest) == Steps(c, Apply(c, s, l), rest)
  {
    hide Enabled, Apply;
    assert ([l] + rest)[1..] == rest;
  }
}
