/** The UMD fingerprint watcher of internal/daemon/watcher.go: version maps are
    heap objects that the prober, the callback and status readers may keep and
    overwrite at any time. */
module Watcher {
  import opened Strings

  type Versions = map<string, string>

  /** A Go map[string]string value: a reference others may share. */
  class Snapshot {
    var entries: Versions

    constructor (entries: Versions)
      ensures this.entries == entries
    {
      this.entries := entries;
    }
  }

  /** Contents of a map reference; a nil map reads as empty. */
  function View(s: Snapshot?): Versions
    reads s
  {
    if s == null then map[] else s.entries
  }

  /** Everything outside the watcher: `held` are the maps it has references to. */
  class Outside {
    var held: set<Snapshot>

    constructor ()
      ensures held == {}
    {
      held := {};
    }

    /** Outside code runs and overwrites any of its maps in any way. */
    method Interfere()
      modifies held
      ensures held == old(held)
    {
      modify held;
    }

    /** The prober returns a snapshot: a nil map, a new map, or one it has handed
        out before. */
    method Probe(versions: Option<Versions>) returns (s: Snapshot?)
      modifies this, held
      ensures s == null <==> versions.None?
      ensures s != null ==> s in held && s.entries == versions.value
      ensures held >= old(held) && fresh(held - old(held))
    {
      if versions.None? {
        return null;
      }
      var reuse: bool := *;
      if held != {} && reuse {
        var reused :| reused in held;
        reused.entries := versions.value;
        return reused;
      }
      var made := new Snapshot(versions.value);
      Receive(made);
      return made;
    }

    /** Outside code is handed a map. */
    method Receive(s: Snapshot)
      modifies this
      ensures held == old(held) + {s}
    {
      held := held + {s};
    }
  }

  method Clone(s: Snapshot?) returns (c: Snapshot?)
    ensures s == null <==> c == null
    ensures c != null ==> fresh(c)
    ensures View(c) == View(s)
  {
    if s == null {
      return null;
    }
    var copy: Versions := map[];
    var keys := s.entries.Keys;
    while keys != {}
      invariant keys + copy.Keys == s.entries.Keys && keys !! copy.Keys
      invariant forall k :: k in copy ==> copy[k] == s.entries[k]
      decreases |keys|
    {
      var k :| k in keys;
      copy := copy[k := s.entries[k]];
      keys := keys - {k};
    }
    assert copy == s.entries;
    c := new Snapshot(copy);
  }

  /** Go map lookup: a missing key reads as "". */
  function Lookup(m: Versions, k: string): string {
    if k in m then m[k] else ""
  }

  ghost predicate Differ(a: Versions, b: Versions) {
    |a| != |b| || exists k :: k in a && Lookup(b, k) != a[k]
  }

  method VersionsDiffer(a: Snapshot?, b: Snapshot?) returns (differ: bool)
    ensures differ == Differ(View(a), View(b))
  {
    var x, y := View(a), View(b);
    if |x| != |y| {
      return true;
    }
    var keys := x.Keys;
    while keys != {}
      invariant keys <= x.Keys
      invariant forall k :: k in x && k !in keys ==> Lookup(y, k) == x[k]
      decreases |keys|
    {
      var k :| k in keys;
      if Lookup(y, k) != x[k] {
        return true;
      }
      keys := keys - {k};
    }
    return false;
  }

  predicate NonEmptyValues(m: Versions) {
    forall k :: k in m ==> m[k] != ""
  }

  lemma SameKeys(a: Versions, b: Versions)
    requires |a| == |b| && a.Keys <= b.Keys
    ensures a.Keys == b.Keys
  {
    if exists k :: k in b && k !in a {
      var k :| k in b && k !in a;
      SubsetSize(a.Keys + {k}, b.Keys);
    }
  }

  lemma {:induction false} SubsetSize(x: set<string>, y: set<string>)
    requires x <= y
    ensures |x| <= |y|
    decreases x
  {
    if x != {} {
      var k :| k in x;
      SubsetSize(x - {k}, y - {k});
    }
  }

  lemma {:induction false} FreshKey(keys: set<string>) returns (k: string)
    ensures k !in keys && forall other :: other in keys ==> |other| < |k|
    decreases keys
  {
    if keys == {} {
      k := "";
    } else {
      var x :| x in keys;
      var k' := FreshKey(keys - {x});
      k := k' + x + "x";
    }
  }

  lemma NonEmptyDetects(a: Versions, b: Versions)
    requires NonEmptyValues(a)
    ensures Differ(a, b) <==> a != b
  {
    if !Differ(a, b) {
      forall k | k in a
        ensures k in b && b[k] == a[k]
      {
        assert Lookup(b, k) == a[k];
      }
      SameKeys(a, b);
    }
  }

  lemma EmptyHides(a: Versions, k: string) returns (b: Versions)
    requires k in a && a[k] == ""
    ensures a != b && !Differ(a, b)
  {
    var k' := FreshKey(a.Keys);
    b := (a - {k})[k' := "x"];
    assert (a - {k}).Keys == a.Keys - {k};
    assert b.Keys == a.Keys - {k} + {k'};
    assert |b.Keys| == |a.Keys|;
    assert k !in b;
  }

  /** The comparison detects every change of a baseline exactly when the baseline
      has no empty fingerprint; otherwise a renamed entry can go unnoticed. */
  lemma DifferIsChange(a: Versions)
    ensures NonEmptyValues(a) <==> forall b :: Differ(a, b) <==> a != b
  {
    hide Differ;
    if NonEmptyValues(a) {
      forall b
        ensures Differ(a, b) <==> a != b
      {
        NonEmptyDetects(a, b);
      }
    } else {
      var k :| k in a && a[k] == "";
      var b := EmptyHides(a, k);
    }
  }

  /** What the callback is told. */
  datatype Trigger = Trigger(versions: Versions, prevVersions: Versions)

  /** Calling the callback: it gets its own copies and may do anything to them. */
  method Deliver(out: Outside, snapshot: Snapshot?, prev: Snapshot?) returns (trigger: Trigger)
    requires snapshot != null ==> snapshot !in out.held
    requires prev != null ==> prev !in out.held
    modifies out, out.held
    ensures trigger == Trigger(old(View(snapshot)), old(View(prev)))
    ensures out.held >= old(out.held) && fresh(out.held - old(out.held))
  {
    var versions := Clone(snapshot);
    var prevVersions := Clone(prev);
    trigger := Trigger(View(versions), View(prevVersions));
    if versions != null {
      out.Receive(versions);
    }
    if prevVersions != null {
      out.Receive(prevVersions);
    }
    out.Interfere();
  }

  class Watcher {
    const hasCallback: bool
    const hasStatusHook: bool
    var last: Snapshot?
    var lastRun: int
    var lastErr: Option<string>

    constructor (hasCallback: bool, hasStatusHook: bool)
      ensures this.hasCallback == hasCallback && this.hasStatusHook == hasStatusHook
      ensures last == null && lastErr == None
    {
      this.hasCallback := hasCallback;
      this.hasStatusHook := hasStatusHook;
      last, lastRun, lastErr := null, 0, None;
    }

    /** No outside code has a reference to the retained baseline. */
    predicate Private(out: Outside)
      reads this, out
    {
      last != null ==> last !in out.held
    }

    /** A copy of the latest observation, for a reader to keep. */
    method Status() returns (versions: Snapshot, run: int, err: Option<string>)
      ensures fresh(versions) && versions.entries == View(last)
      ensures run == lastRun && err == lastErr
    {
      var copy := Clone(last);
      if copy == null {
        versions := new Snapshot(map[]);
      } else {
        versions := copy;
      }
      run, err := lastRun, lastErr;
    }

    method PublishStatus(out: Outside)
      requires Private(out)
      modifies out, out.held
      ensures !hasStatusHook ==> out.held == old(out.held)
      ensures Private(out) && View(last) == old(View(last))
      ensures out.held >= old(out.held) && fresh(out.held - old(out.held))
    {
      if hasStatusHook {
        var versions, run, err := Status();
        out.Receive(versions);
        out.Interfere();
      }
    }

    method Baseline(out: Outside, probed: Snapshot?, now: int)
      requires Private(out) && (probed != null ==> probed in out.held)
      modifies this, out, out.held
      ensures Private(out)
      ensures out.held >= old(out.held) && fresh(out.held - old(out.held))
      ensures View(last) == old(View(probed)) && lastRun == now && lastErr == old(lastErr)
    {
      var snapshot := Clone(probed);
      last := snapshot;
      lastRun := now;
      out.Interfere();
      PublishStatus(out);
    }

    /** One tick. `cancelled` is the context as seen right after the probe,
        `outcome` what the callback returns if it is called (None: success). */
    method Tick(out: Outside, probed: Snapshot?, cancelled: bool, outcome: Option<string>, now: int)
      returns (fired: Option<Trigger>)
      requires Private(out) && (probed != null ==> probed in out.held)
      modifies this, out, out.held
      ensures Private(out) && lastRun == now
      ensures out.held >= old(out.held) && fresh(out.held - old(out.held))
      ensures var prev, snap := old(View(last)), old(View(probed));
        if cancelled || !hasCallback || !Differ(prev, snap) then
          fired == None && View(last) == snap && lastErr == old(lastErr)
        else
          && fired == Some(Trigger(snap, prev))
          && lastErr == outcome
          && View(last) == if outcome.None? then snap else prev
    {
      hide Differ;
      fired := None;
      var snapshot := Clone(probed);
      var prev := last;
      last := snapshot;
      lastRun := now;
      out.Interfere();
      if cancelled {
        return;
      }
      var differ := VersionsDiffer(prev, snapshot);
      if !differ {
        PublishStatus(out);
        return;
      }
      if !hasCallback {
        PublishStatus(out);
        return;
      }

      var trigger := Deliver(out, snapshot, prev);
      fired := Some(trigger);
      lastErr := outcome;
      if outcome.Some? {
        last := prev;
      }
      PublishStatus(out);
    }

    /** The whole run: baseline, then ticks until the context is cancelled. Each
        event is one turn of the select loop. */
    method Run(out: Outside, cancelled: bool, base: Option<Versions>, events: seq<Event>)
      returns (calls: seq<Call>)
      requires last == null && lastErr == None
      modifies this, out, out.held
      ensures Private(out)
      ensures cancelled ==> calls == [] && last == null
      ensures !cancelled ==>
        var r := Replay(hasCallback, ViewOf(base), events);
        calls == r.calls && View(last) == r.last && lastErr == r.lastErr
    {
      hide Differ, Replay;
      calls := [];
      if cancelled {
        return;
      }
      ReplayStart(hasCallback, ViewOf(base), events);
      var probed := out.Probe(base);
      Baseline(out, probed, 0);
      var stopped := false;
      for i := 0 to |events|
        invariant Private(out)
        invariant out.held >= old(out.held) && fresh(out.held - old(out.held))
        invariant var r := Replay(hasCallback, ViewOf(base), events[..i]);
          calls == r.calls && View(last) == r.last && lastErr == r.lastErr && stopped == r.stopped
      {
        ReplayNext(hasCallback, ViewOf(base), events, i);
        var e := events[i];
        out.Interfere();
        if stopped || e.cancel == BeforeTick {
          stopped := true;
          continue;
        }
        probed := out.Probe(e.versions);
        var fired := Tick(out, probed, e.cancel == InProbe, e.outcome, i);
        if fired.Some? {
          calls := calls + [Call(fired.value, e.outcome)];
        }
        stopped := e.cancel == InProbe;
      }
      assert events[..|events|] == events;
    }
  }

  /** When the context is cancelled relative to a turn of the loop. Cancellation
      while the callback runs shows up as BeforeTick on the next turn. */
  datatype Cancel = NoCancel | BeforeTick | InProbe

  datatype Event = Event(cancel: Cancel, versions: Option<Versions>, outcome: Option<string>)

  datatype Call = Call(trigger: Trigger, outcome: Option<string>)

  /** Observable state of a run; `interrupted` means a probe outlived the context. */
  datatype History = History(
    last: Versions, lastErr: Option<string>, calls: seq<Call>, stopped: bool, interrupted: bool)

  function ViewOf(versions: Option<Versions>): Versions {
    if versions.Some? then versions.value else map[]
  }

  ghost function Step(hasCallback: bool, r: History, e: Event): History {
    var seen := ViewOf(e.versions);
    if r.stopped || e.cancel == BeforeTick then r.(stopped := true)
    else if e.cancel == InProbe then r.(last := seen, stopped := true, interrupted := true)
    else if !hasCallback || !Differ(r.last, seen) then r.(last := seen)
    else
      var calls := r.calls + [Call(Trigger(seen, r.last), e.outcome)];
      r.(last := if e.outcome.None? then seen else r.last, lastErr := e.outcome, calls := calls)
  }

  ghost function Replay(hasCallback: bool, base: Versions, events: seq<Event>): History {
    if events == [] then History(base, None, [], false, false)
    else Step(hasCallback, Replay(hasCallback, base, events[..|events| - 1]), events[|events| - 1])
  }

  lemma ReplayStart(hasCallback: bool, base: Versions, events: seq<Event>)
    ensures Replay(hasCallback, base, events[..0]) == History(base, None, [], false, false)
  {
  }

  lemma ReplayNext(hasCallback: bool, base: Versions, events: seq<Event>, i: nat)
    requires i < |events|
    ensures Replay(hasCallback, base, events[..i + 1])
      == Step(hasCallback, Replay(hasCallback, base, events[..i]), events[i])
  {
    assert events[..i + 1][..i] == events[..i];
  }

  /** The snapshot last acknowledged by a successful callback, else the baseline. */
  function Acknowledged(base: Versions, calls: seq<Call>): Versions {
    if calls == [] then base
    else
      var call := calls[|calls| - 1];
      if call.outcome.None? then call.trigger.versions else Acknowledged(base, calls[..|calls| - 1])
  }

  /** Every call reports a real change against what was acknowledged before it. */
  predicate RealChanges(base: Versions, calls: seq<Call>) {
    calls == [] ||
    (var before, t := calls[..|calls| - 1], calls[|calls| - 1].trigger;
     RealChanges(base, before) && t.prevVersions == Acknowledged(base, before) && t.versions != t.prevVersions)
  }

  lemma PushCall(base: Versions, calls: seq<Call>, c: Call)
    ensures Acknowledged(base, calls + [c]) ==
      if c.outcome.None? then c.trigger.versions else Acknowledged(base, calls)
    ensures RealChanges(base, calls + [c]) ==
      (RealChanges(base, calls)
       && c.trigger.prevVersions == Acknowledged(base, calls) && c.trigger.versions != c.trigger.prevVersions)
  {
    assert (calls + [c])[..|calls|] == calls;
  }

  lemma {:induction false} RealChangeAt(base: Versions, calls: seq<Call>, i: nat)
    requires RealChanges(base, calls) && i < |calls|
    ensures calls[i].trigger.prevVersions == Acknowledged(base, calls[..i])
    ensures calls[i].trigger.versions != calls[i].trigger.prevVersions
    decreases |calls|
  {
    if i + 1 < |calls| {
      RealChangeAt(base, calls[..|calls| - 1], i);
      assert calls[..|calls| - 1][..i] == calls[..i];
    }
  }

  /** Calls report real changes, and the watcher retains the acknowledged snapshot and the latest outcome. */
  ghost predicate Acknowledging(base: Versions, r: History) {
    && RealChanges(base, r.calls)
    && r.lastErr == (if r.calls == [] then None else r.calls[|r.calls| - 1].outcome)
    && (!r.interrupted ==> r.last == Acknowledged(base, r.calls))
    && (r.interrupted ==> r.stopped)
  }

  ghost predicate NonEmptyRun(base: Versions, events: seq<Event>) {
    NonEmptyValues(base) && forall e :: e in events ==> NonEmptyValues(ViewOf(e.versions))
  }

  lemma {:induction false} RetainsNonEmpty(base: Versions, events: seq<Event>)
    requires NonEmptyRun(base, events)
    ensures NonEmptyValues(Replay(true, base, events).last)
  {
    if events != [] {
      RetainsNonEmpty(base, events[..|events| - 1]);
    }
  }

  /** A tick fires exactly when the run is live and what it sees differs from the
      acknowledged snapshot; so failed changes are retried and settled ones not. */
  lemma FiresExactlyOnChange(base: Versions, events: seq<Event>, e: Event)
    requires NonEmptyRun(base, events)
    ensures var r, r' := Replay(true, base, events), Replay(true, base, events + [e]);
      var acked := Acknowledged(base, r.calls);
      r'.calls == r.calls +
        if !r.stopped && e.cancel == NoCancel && ViewOf(e.versions) != acked
        then [Call(Trigger(ViewOf(e.versions), acked), e.outcome)] else []
  {
    hide Differ;
    var r := Replay(true, base, events);
    RunsAcknowledge(base, events);
    RetainsNonEmpty(base, events);
    NonEmptyDetects(r.last, ViewOf(e.versions));
    assert (events + [e])[..|events|] == events;
  }

  lemma StepAcknowledges(base: Versions, r: History, e: Event)
    requires Acknowledging(base, r) && NonEmptyValues(r.last)
    ensures Acknowledging(base, Step(true, r, e))
  {
    hide Differ, Acknowledged, RealChanges;
    var seen := ViewOf(e.versions);
    NonEmptyDetects(r.last, seen);
    PushCall(base, r.calls, Call(Trigger(seen, r.last), e.outcome));
  }

  /** Every run refines the acknowledged-snapshot specification. */
  lemma {:induction false} RunsAcknowledge(base: Versions, events: seq<Event>)
    requires NonEmptyRun(base, events)
    ensures Acknowledging(base, Replay(true, base, events))
  {
    hide Differ, Step, Acknowledging;
    if events == [] {
      StartAcknowledges(base);
    } else {
      var before := events[..|events| - 1];
      RunsAcknowledge(base, before);
      RetainsNonEmpty(base, before);
      StepAcknowledges(base, Replay(true, base, before), events[|events| - 1]);
    }
  }

  lemma StartAcknowledges(base: Versions)
    ensures Acknowledging(base, Replay(true, base, []))
  {
  }

  /** No tick follows a cancelled one. */
  lemma {:induction false} NothingAfterCancel(hasCallback: bool, base: Versions, events: seq<Event>, i: nat)
    requires i < |events| && events[i].cancel != NoCancel
    ensures Replay(hasCallback, base, events) == Replay(hasCallback, base, events[..i + 1])
    ensures Replay(hasCallback, base, events).stopped
    decreases |events|
  {
    if i + 1 < |events| {
      var before := events[..|events| - 1];
      NothingAfterCancel(hasCallback, base, before, i);
      assert before[..i + 1] == events[..i + 1];
    } else {
      assert events[..i + 1] == events;
    }
  }

  /** Position after the first success among the outcomes, or their number. */
  function Attempts(outcomes: seq<Option<string>>): nat {
    if outcomes == [] then 0
    else if outcomes[0].None? then 1
    else 1 + Attempts(outcomes[1..])
  }

  lemma {:induction false} AttemptsGrow(outcomes: seq<Option<string>>, o: Option<string>)
    ensures Attempts(outcomes) <= |outcomes|
    ensures None !in outcomes ==> Attempts(outcomes) == |outcomes|
    ensures Attempts(outcomes + [o]) ==
      if None in outcomes then Attempts(outcomes) else |outcomes| + 1
  {
    if outcomes != [] {
      assert (outcomes + [o])[1..] == outcomes[1..] + [o];
      AttemptsGrow(outcomes[1..], o);
      assert outcomes == [outcomes[0]] + outcomes[1..];
    }
  }

  function SteadyEvents(v: Versions, outcomes: seq<Option<string>>): (events: seq<Event>)
    ensures |events| == |outcomes|
  {
    seq(|outcomes|, i requires 0 <= i < |outcomes| => Event(NoCancel, Some(v), outcomes[i]))
  }

  function SteadyCalls(v: Versions, prev: Versions, outcomes: seq<Option<string>>): (calls: seq<Call>)
    ensures |calls| == |outcomes|
  {
    seq(|outcomes|, i requires 0 <= i < |outcomes| => Call(Trigger(v, prev), outcomes[i]))
  }

  /** A driver change that then stays put is reported on every tick up to and
      including the first callback that succeeds, always against the same
      baseline, and never again. */
  lemma {:induction false} SettledChange(base: Versions, v: Versions, outcomes: seq<Option<string>>)
    requires NonEmptyValues(base) && NonEmptyValues(v) && v != base
    ensures Attempts(outcomes) <= |outcomes|
    ensures var r := Replay(true, base, SteadyEvents(v, outcomes));
      && !r.stopped
      && r.calls == SteadyCalls(v, base, outcomes[..Attempts(outcomes)])
      && r.last == if None in outcomes then v else base
  {
    hide Differ, Attempts, Replay;
    if outcomes == [] {
      SettledStart(base, v);
    } else {
      var n := |outcomes| - 1;
      var before, o := outcomes[..n], outcomes[n];
      assert before + [o] == outcomes;
      SettledChange(base, v, before);
      AttemptsGrow(before, o);
      ReplayNext(true, base, SteadyEvents(v, outcomes), n);
      assert SteadyEvents(v, outcomes)[..n] == SteadyEvents(v, before);
      assert SteadyEvents(v, outcomes)[..n + 1] == SteadyEvents(v, outcomes);
      NonEmptyDetects(base, v);
      NonEmptyDetects(v, v);
      if None in before {
        assert outcomes[..Attempts(before)] == before[..Attempts(before)];
      } else {
        assert before[..n] == before && outcomes[..n + 1] == outcomes;
        assert SteadyCalls(v, base, outcomes) == SteadyCalls(v, base, before) + [Call(Trigger(v, base), o)];
      }
    }
  }

  lemma SettledStart(base: Versions, v: Versions)
    ensures Attempts([]) == 0
    ensures Replay(true, base, SteadyEvents(v, [])) == History(base, None, [], false, false)
  {
  }
}
