/** CDI specifications as internal/cdi builds them, and the fold that makes every
    device entry self-contained. The meaning of edits is that of the CNCF
    Container Device Interface specification, section "CDI JSON Specification",
    `containerEdits`: spec-level edits first, then those of each selected device. */
module CdiSpec {
  import opened Strings

  datatype DeviceNode = DeviceNode(path: string, hostPath: string, permissions: string)

  datatype Mount = Mount(hostPath: string, containerPath: string, options: seq<string>)

  datatype Hook = Hook(hookName: string, path: string, args: seq<string>, env: seq<string>)

  datatype Edits = Edits(
    env: seq<string>, deviceNodes: seq<DeviceNode>, hooks: seq<Hook>, mounts: seq<Mount>,
    intelRdt: Option<string>, additionalGids: seq<int>)

  const NO_EDITS := Edits([], [], [], [], None, [])

  datatype Device = Device(name: string, edits: Edits)

  datatype Spec = Spec(version: string, kind: string, edits: Edits, devices: seq<Device>)

  predicate IsEmpty(e: Edits) {
    && |e.env| == 0 && |e.deviceNodes| == 0 && |e.hooks| == 0 && |e.mounts| == 0
    && e.intelRdt.None? && |e.additionalGids| == 0
  }

  /** Applying `a`, then `b`. */
  function Then(a: Edits, b: Edits): Edits {
    Edits(a.env + b.env, a.deviceNodes + b.deviceNodes, a.hooks + b.hooks, a.mounts + b.mounts,
          if b.intelRdt.Some? then b.intelRdt else a.intelRdt, a.additionalGids + b.additionalGids)
  }

  predicate Selects(devices: seq<Device>, selection: seq<nat>) {
    forall k :: 0 <= k < |selection| ==> selection[k] < |devices|
  }

  /** The edits of the selected devices alone. */
  function Chosen(devices: seq<Device>, selection: seq<nat>): Edits
    requires Selects(devices, selection)
  {
    if selection == [] then NO_EDITS
    else Then(Chosen(devices, selection[..|selection| - 1]), devices[selection[|selection| - 1]].edits)
  }

  /** What a container gets when the listed devices are selected: the spec-level
      edits are made only if some device of the spec is. */
  function Effective(s: Spec, selection: seq<nat>): Edits
    requires Selects(s.devices, selection)
  {
    if selection == [] then NO_EDITS else Then(s.edits, Chosen(s.devices, selection))
  }

  /** Selecting one device. */
  function Single(s: Spec, i: nat): Edits
    requires i < |s.devices|
  {
    Effective(s, [i])
  }

  function FoldDevices(common: Edits, devices: seq<Device>): (folded: seq<Device>)
    ensures |folded| == |devices|
  {
    seq(|devices|, i requires 0 <= i < |devices| =>
      if IsEmpty(devices[i].edits) then devices[i].(edits := common) else devices[i])
  }

  predicate HasEmptyDevice(devices: seq<Device>) {
    exists d :: d in devices && IsEmpty(d.edits)
  }

  function Folded(s: Spec): Spec {
    if IsEmpty(s.edits) || !HasEmptyDevice(s.devices) then s
    else s.(edits := NO_EDITS, devices := FoldDevices(s.edits, s.devices))
  }

  /** A spec under construction, changed in place. */
  class SpecDocument {
    var spec: Spec

    constructor (spec: Spec)
      ensures this.spec == spec
    {
      this.spec := spec;
    }

    method FoldCommonEditsIntoEmptyDevices()
      modifies this
      ensures spec == Folded(old(spec))
    {
      if IsEmpty(spec.edits) {
        return;
      }
      var devices := spec.devices;
      var done := false;
      for i := 0 to |devices|
        invariant |devices| == |spec.devices| && spec == old(spec)
        invariant devices[..i] == FoldDevices(spec.edits, spec.devices)[..i]
        invariant devices[i..] == spec.devices[i..]
        invariant done == HasEmptyDevice(spec.devices[..i])
      {
        assert devices[i] == spec.devices[i] by {
          assert devices[i..][0] == spec.devices[i..][0];
        }
        assert spec.devices[..i + 1] == spec.devices[..i] + [spec.devices[i]];
        if IsEmpty(devices[i].edits) {
          devices := devices[i := devices[i].(edits := spec.edits)];
          done := true;
        }
      }
      assert spec.devices[..|devices|] == spec.devices;
      if done {
        spec := spec.(edits := NO_EDITS, devices := devices);
      }
    }
  }

  lemma ThenEmpty(a: Edits, b: Edits)
    ensures IsEmpty(a) ==> Then(a, b) == b
    ensures IsEmpty(b) ==> Then(a, b) == a
  {
  }

  /** Prepending non-empty edits shows, unless all they hold is a class of service
      that the device overrides. */
  lemma ThenShows(common: Edits, e: Edits)
    requires !IsEmpty(common) && common.intelRdt.None?
    ensures Then(common, e) != e
  {
    var t := Then(common, e);
    assert |t.env| + |t.deviceNodes| + |t.hooks| + |t.mounts| + |t.additionalGids|
      > |e.env| + |e.deviceNodes| + |e.hooks| + |e.mounts| + |e.additionalGids|;
  }

  lemma SingleEdits(s: Spec, i: nat)
    requires i < |s.devices|
    ensures Single(s, i) == Then(s.edits, s.devices[i].edits)
  {
    hide Then, IsEmpty;
    assert [i][..0] == [] && Chosen(s.devices, []) == NO_EDITS;
    NoEditsEmpty();
    ThenEmpty(NO_EDITS, s.devices[i].edits);
  }

  /** Folding leaves every single-device selection unchanged exactly when there is
      nothing to fold, nothing to fold into, or every device was empty. (The
      toolkit never sets an RDT class of service.) */
  lemma FoldPreservesSingles(s: Spec)
    requires s.edits.intelRdt.None?
    ensures |Folded(s).devices| == |s.devices|
    ensures (forall i :: 0 <= i < |s.devices| ==>
               Single(Folded(s), i) == Single(s, i) && Folded(s).devices[i].name == s.devices[i].name)
      <==> IsEmpty(s.edits) || !HasEmptyDevice(s.devices) || forall d :: d in s.devices ==> IsEmpty(d.edits)
  {
    hide Then, IsEmpty, Single;
    var t := Folded(s);
    if !IsEmpty(s.edits) && HasEmptyDevice(s.devices) {
      forall i | 0 <= i < |s.devices|
        ensures Single(t, i) == Single(s, i) <==> IsEmpty(s.devices[i].edits)
      {
        SingleEdits(s, i);
        SingleEdits(t, i);
        NoEditsEmpty();
        ThenEmpty(NO_EDITS, t.devices[i].edits);
        if IsEmpty(s.devices[i].edits) {
          ThenEmpty(s.edits, s.devices[i].edits);
        } else {
          ThenShows(s.edits, s.devices[i].edits);
        }
      }
      forall i | 0 <= i < |s.devices|
        ensures t.devices[i].name == s.devices[i].name
      {
      }
    }
  }

  lemma NoEditsEmpty()
    ensures IsEmpty(NO_EDITS)
  {
  }

  /** After the fold an empty device is left only if there was nothing to fold. */
  lemma FoldFillsDevices(s: Spec)
    ensures HasEmptyDevice(Folded(s).devices) <==> HasEmptyDevice(s.devices) && IsEmpty(s.edits)
  {
    hide IsEmpty;
    if !IsEmpty(s.edits) && HasEmptyDevice(s.devices) {
      var folded := FoldDevices(s.edits, s.devices);
      forall d | d in folded
        ensures !IsEmpty(d.edits)
      {
        var i :| 0 <= i < |folded| && folded[i] == d;
      }
    }
  }

  lemma ThenAssociative(a: Edits, b: Edits, c: Edits)
    ensures Then(Then(a, b), c) == Then(a, Then(b, c))
  {
  }

  /** How many of the selected devices have no edits of their own. */
  function EmptyCount(devices: seq<Device>, selection: seq<nat>): nat
    requires Selects(devices, selection)
  {
    if selection == [] then 0
    else
      EmptyCount(devices, selection[..|selection| - 1])
      + if IsEmpty(devices[selection[|selection| - 1]].edits) then 1 else 0
  }

  function Size(e: Edits): nat {
    |e.env| + |e.deviceNodes| + |e.hooks| + |e.mounts| + |e.additionalGids|
  }

  lemma ThenSize(a: Edits, b: Edits)
    ensures Size(Then(a, b)) == Size(a) + Size(b)
  {
  }

  lemma EmptySize(e: Edits)
    ensures IsEmpty(e) <==> Size(e) == 0 && e.intelRdt.None?
  {
  }

  /** Folding adds the common edits once for each empty device selected. */
  lemma {:induction false} FoldedSize(common: Edits, devices: seq<Device>, selection: seq<nat>)
    requires Selects(devices, selection)
    ensures Size(Chosen(FoldDevices(common, devices), selection))
      == Size(Chosen(devices, selection)) + EmptyCount(devices, selection) * Size(common)
  {
    hide Then, IsEmpty, Size;
    if selection != [] {
      var front, last := selection[..|selection| - 1], selection[|selection| - 1];
      FoldedSize(common, devices, front);
      ThenSize(Chosen(devices, front), devices[last].edits);
      ThenSize(Chosen(FoldDevices(common, devices), front), FoldDevices(common, devices)[last].edits);
      EmptySize(devices[last].edits);
    }
  }

  /** Where no empty device is selected, folding changes nothing. */
  lemma {:induction false} FoldedWithoutEmpty(common: Edits, devices: seq<Device>, selection: seq<nat>)
    requires Selects(devices, selection) && EmptyCount(devices, selection) == 0
    ensures Chosen(FoldDevices(common, devices), selection) == Chosen(devices, selection)
  {
    hide Then, IsEmpty;
    if selection != [] {
      FoldedWithoutEmpty(common, devices, selection[..|selection| - 1]);
    }
  }

  /** The edits of the devices selected before the first empty one. */
  function BeforeEmpty(devices: seq<Device>, selection: seq<nat>): Edits
    requires Selects(devices, selection)
  {
    if EmptyCount(devices, selection) == 0 then Chosen(devices, selection)
    else BeforeEmpty(devices, selection[..|selection| - 1])
  }

  lemma CancelLast(a: Edits, b: Edits, c: Edits)
    requires a.intelRdt == b.intelRdt
    ensures Then(a, c) == Then(b, c) <==> a == b
  {
    if Then(a, c) == Then(b, c) {
      CancelSuffix(a.env, b.env, c.env);
      CancelSuffix(a.deviceNodes, b.deviceNodes, c.deviceNodes);
      CancelSuffix(a.hooks, b.hooks, c.hooks);
      CancelSuffix(a.mounts, b.mounts, c.mounts);
      CancelSuffix(a.additionalGids, b.additionalGids, c.additionalGids);
    }
  }

  lemma CancelSuffix<T>(a: seq<T>, b: seq<T>, c: seq<T>)
    requires a + c == b + c
    ensures a == b
  {
    assert a == (a + c)[..|a|] && b == (b + c)[..|a|];
  }

  /** Folding drops the common edits but for the copy of the one empty device,
      where it stands in the selection. */
  lemma {:induction false} FoldedOnce(common: Edits, devices: seq<Device>, selection: seq<nat>)
    requires Selects(devices, selection) && EmptyCount(devices, selection) == 1 && common.intelRdt.None?
    ensures var before := BeforeEmpty(devices, selection);
      Chosen(FoldDevices(common, devices), selection) == Then(common, Chosen(devices, selection))
      <==> Then(before, common) == Then(common, before)
    ensures Chosen(FoldDevices(common, devices), selection).intelRdt == Chosen(devices, selection).intelRdt
  {
    hide IsEmpty, EmptyCount;
    CountStep(devices, selection);
    var front, last := selection[..|selection| - 1], selection[|selection| - 1];
    var folded := FoldDevices(common, devices);
    if IsEmpty(devices[last].edits) {
      FoldedWithoutEmpty(common, devices, front);
      ThenEmpty(Chosen(devices, front), devices[last].edits);
      RdtOfEmpty(devices[last].edits);
      assert BeforeEmpty(devices, selection) == Chosen(devices, front);
    } else {
      FoldedOnce(common, devices, front);
      ThenAssociative(common, Chosen(devices, front), devices[last].edits);
      CancelLast(Chosen(folded, front), Then(common, Chosen(devices, front)), devices[last].edits);
    }
  }

  lemma CountStep(devices: seq<Device>, selection: seq<nat>)
    requires Selects(devices, selection) && EmptyCount(devices, selection) == 1
    ensures selection != []
    ensures EmptyCount(devices, selection[..|selection| - 1]) ==
      if IsEmpty(devices[selection[|selection| - 1]].edits) then 0 else 1
  {
  }

  lemma RdtOfEmpty(e: Edits)
    requires IsEmpty(e)
    ensures e.intelRdt.None?
  {
  }

  /** For every selection, repeats included: the fold preserves what the container
      gets if and only if nothing is selected, there is nothing to fold or to fold
      into, or exactly one empty device is selected and the common edits may as well
      come after the devices selected before that one. */
  lemma FoldPreservesSelection(s: Spec, selection: seq<nat>)
    requires Selects(s.devices, selection) && s.edits.intelRdt.None?
    ensures |Folded(s).devices| == |s.devices|
    ensures var before := BeforeEmpty(s.devices, selection);
      Effective(Folded(s), selection) == Effective(s, selection)
      <==> (selection == [] || IsEmpty(s.edits) || !HasEmptyDevice(s.devices)
            || (EmptyCount(s.devices, selection) == 1 && Then(before, s.edits) == Then(s.edits, before)))
  {
    hide Then, IsEmpty, Size, EmptyCount, Chosen, BeforeEmpty;
    if selection != [] && !IsEmpty(s.edits) && HasEmptyDevice(s.devices) {
      var common, folded := s.edits, FoldDevices(s.edits, s.devices);
      NoEditsEmpty();
      ThenEmpty(NO_EDITS, Chosen(folded, selection));
      if EmptyCount(s.devices, selection) == 1 {
        FoldedOnce(common, s.devices, selection);
      } else {
        FoldedSize(common, s.devices, selection);
        ThenSize(common, Chosen(s.devices, selection));
        EmptySize(common);
        NotOneTimes(EmptyCount(s.devices, selection), Size(common));
      }
    }
  }

  lemma NotOneTimes(n: nat, m: nat)
    requires n != 1 && m > 0
    ensures n * m != m
  {
    if n > 1 {
      assert n * m == m + (n - 1) * m && (n - 1) * m > 0;
    }
  }

  lemma {:induction false} AllEmpty(devices: seq<Device>, selection: seq<nat>)
    requires Selects(devices, selection) && forall d :: d in devices ==> IsEmpty(d.edits)
    ensures EmptyCount(devices, selection) == |selection|
    ensures BeforeEmpty(devices, selection) == NO_EDITS
  {
    hide IsEmpty, Then;
    if selection != [] {
      AllEmpty(devices, selection[..|selection| - 1]);
      assert devices[selection[|selection| - 1]] in devices;
    }
  }

  /** Edits applied several times over. */
  function Times(e: Edits, n: nat): Edits {
    if n == 0 then NO_EDITS else Then(Times(e, n - 1), e)
  }

  lemma {:induction false} ChosenFromEmpty(common: Edits, devices: seq<Device>, selection: seq<nat>)
    requires Selects(devices, selection) && forall d :: d in devices ==> IsEmpty(d.edits)
    ensures IsEmpty(Chosen(devices, selection))
    ensures Chosen(FoldDevices(common, devices), selection) == Times(common, |selection|)
  {
    hide Then, IsEmpty;
    if selection == [] {
      NoEditsEmpty();
    } else {
      var front, last := selection[..|selection| - 1], devices[selection[|selection| - 1]];
      ChosenFromEmpty(common, devices, front);
      assert last in devices;
      ThenEmpty(Chosen(devices, front), last.edits);
    }
  }

  /** When every device is empty, as with devices disabled, a selection of devices
      should get the common edits once, and gets them once for each device in it
      after the fold; so exactly the selections of at most one device are
      preserved. */
  lemma FoldPreservesAtMostOne(s: Spec, selection: seq<nat>)
    requires Selects(s.devices, selection) && s.edits.intelRdt.None? && !IsEmpty(s.edits)
    requires s.devices != [] && forall d :: d in s.devices ==> IsEmpty(d.edits)
    ensures |Folded(s).devices| == |s.devices|
    ensures Effective(s, selection) == if selection == [] then NO_EDITS else s.edits
    ensures Effective(Folded(s), selection) == Times(s.edits, |selection|)
    ensures Effective(Folded(s), selection) == Effective(s, selection) <==> |selection| <= 1
  {
    hide Then, IsEmpty;
    assert s.devices[0] in s.devices;
    AllEmpty(s.devices, selection);
    FoldPreservesSelection(s, selection);
    NoEditsEmpty();
    ThenEmpty(NO_EDITS, s.edits);
    ThenEmpty(s.edits, NO_EDITS);
    ChosenFromEmpty(s.edits, s.devices, selection);
    ThenEmpty(s.edits, Chosen(s.devices, selection));
    ThenEmpty(NO_EDITS, Times(s.edits, |selection|));
  }
}
