/** Device classification, ordering and CDI device entries of
    internal/cdi/generator.go. */
module Devices {
  import opened Strings
  import opened Paths
  import opened Numbers
  import opened CdiSpec

  /** A discovered device node. */
  datatype HostDevice = HostDevice(path: string, containerPath: string)

  datatype DeviceClass = Unknown | RBLN | RSD | RBLNFS

  const ALL := "all"
  const LEGACY_RUNTIME := "runtime"
  const RSD_CONTAINER_PATH := "/dev/rsd0"

  function CutPrefix(s: string, prefix: string): Option<string> {
    if HasPrefix(s, prefix) then Some(s[|prefix|..]) else None
  }

  predicate NumericAfter(base: string, prefix: string) {
    CutPrefix(base, prefix).Some? && Atoi(CutPrefix(base, prefix).value).Some?
  }

  function ParseDeviceClass(dev: HostDevice): DeviceClass {
    var base := Base(dev.containerPath);
    if NumericAfter(base, "rblnfs") then RBLNFS
    else if NumericAfter(base, "rbln") then RBLN
    else if NumericAfter(base, "rsd") then RSD
    else Unknown
  }

  function DeviceIndex(dev: HostDevice): string {
    var base := Base(dev.containerPath);
    match CutPrefix(base, "rblnfs")
    case Some(rest) => rest
    case None =>
      match CutPrefix(base, "rbln")
      case Some(rest) => rest
      case None =>
        match CutPrefix(base, "rsd")
        case Some(rest) => rest
        case None => base
  }

  function ClassPrefix(c: DeviceClass): string {
    match c
    case RBLN => "rbln"
    case RSD => "rsd"
    case RBLNFS => "rblnfs"
    case Unknown => ""
  }

  /** A classified device is its class prefix followed by a numeric index. */
  lemma ClassifiedName(dev: HostDevice)
    requires ParseDeviceClass(dev) != Unknown
    ensures Base(dev.containerPath) == ClassPrefix(ParseDeviceClass(dev)) + DeviceIndex(dev)
    ensures Atoi(DeviceIndex(dev)).Some?
  {
    hide Base, Atoi;
    var base := Base(dev.containerPath);
    if HasPrefix(base, "rblnfs") {
      assert base[4] == 'f' && base[4..][0] == 'f' && base[1] == 'b';
      LetterIsNotNumeric(base[4..]);
    }
    if HasPrefix(base, "rbln") {
      assert base[1] == 'b';
    }
    if HasPrefix(base, "rsd") {
      assert base[1] == 's';
    }
  }

  /** The class is exactly what the basename says: the prefix, then a number. */
  lemma ClassifiedExactly(dev: HostDevice)
    ensures ParseDeviceClass(dev) == RBLN <==> exists s :: Atoi(s).Some? && Base(dev.containerPath) == "rbln" + s
    ensures ParseDeviceClass(dev) == RSD <==> exists s :: Atoi(s).Some? && Base(dev.containerPath) == "rsd" + s
    ensures ParseDeviceClass(dev) == RBLNFS <==> exists s :: Atoi(s).Some? && Base(dev.containerPath) == "rblnfs" + s
    ensures forall s :: Atoi(s).Some? && Base(dev.containerPath) in {"rbln" + s, "rsd" + s, "rblnfs" + s} ==>
      DeviceIndex(dev) == s
  {
    hide Base, Atoi, ParseDeviceClass, DeviceIndex;
    if ParseDeviceClass(dev) != Unknown {
      ClassifiedName(dev);
    }
    forall s | Atoi(s).Some?
      ensures Base(dev.containerPath) == "rbln" + s ==> ParseDeviceClass(dev) == RBLN && DeviceIndex(dev) == s
      ensures Base(dev.containerPath) == "rsd" + s ==> ParseDeviceClass(dev) == RSD && DeviceIndex(dev) == s
      ensures Base(dev.containerPath) == "rblnfs" + s ==> ParseDeviceClass(dev) == RBLNFS && DeviceIndex(dev) == s
    {
      NameDecides(dev, s);
    }
  }

  lemma NameDecides(dev: HostDevice, s: string)
    requires Atoi(s).Some?
    ensures Base(dev.containerPath) == "rbln" + s ==> ParseDeviceClass(dev) == RBLN && DeviceIndex(dev) == s
    ensures Base(dev.containerPath) == "rsd" + s ==> ParseDeviceClass(dev) == RSD && DeviceIndex(dev) == s
    ensures Base(dev.containerPath) == "rblnfs" + s ==> ParseDeviceClass(dev) == RBLNFS && DeviceIndex(dev) == s
  {
    hide Base, Atoi;
    var base := Base(dev.containerPath);
    LetterIsNotNumeric(s);
    if base == "rbln" + s {
      assert base[4..] == s && base[4] == s[0];
    } else if base == "rsd" + s {
      assert base[3..] == s && base[1] == 's';
    } else if base == "rblnfs" + s {
      assert base[6..] == s;
    }
  }

  lemma LetterIsNotNumeric(s: string)
    ensures s != "" && !IsDigit(s[0]) && s[0] != '-' && s[0] != '+' ==> Atoi(s).None?
    ensures s == "" ==> Atoi(s).None?
  {
    if s != "" {
      assert s[0] in s;
    }
  }

  /** The sort key: the index, 0 where Atoi fails. */
  function Key(dev: HostDevice): int {
    match Atoi(DeviceIndex(dev)) case Some(n) => n case None => 0
  }

  /** A classified device is ordered by the number in its name, in numeric, not in
      textual order. */
  lemma KeyIsNumber(dev: HostDevice, n: int)
    requires -0x8000_0000_0000_0000 <= n < 0x8000_0000_0000_0000
    requires Base(dev.containerPath) in {"rbln" + Decimal(n), "rsd" + Decimal(n), "rblnfs" + Decimal(n)}
    ensures Key(dev) == n
  {
    hide Base, Atoi, Decimal, ParseDeviceClass, DeviceIndex;
    PrintedIsRead(n);
    ClassifiedExactly(dev);
  }

  predicate SortedByKey(devs: seq<HostDevice>) {
    forall i, j :: 0 <= i < j < |devs| ==> Key(devs[i]) <= Key(devs[j])
  }

  /** The devices with a given key, in order. */
  function WithKey(devs: seq<HostDevice>, k: int): seq<HostDevice> {
    if devs == [] then []
    else (if Key(devs[0]) == k then [devs[0]] else []) + WithKey(devs[1..], k)
  }

  /** sort.SliceStable: sorted, with devices of equal key in their old order. */
  ghost predicate StableSort(devs: seq<HostDevice>, sorted: seq<HostDevice>) {
    SortedByKey(sorted) && multiset(sorted) == multiset(devs) && forall k :: WithKey(sorted, k) == WithKey(devs, k)
  }

  lemma {:induction false} WithKeyConcat(a: seq<HostDevice>, b: seq<HostDevice>, k: int)
    ensures WithKey(a + b, k) == WithKey(a, k) + WithKey(b, k)
  {
    hide Key;
    if a == [] {
      assert a + b == b;
    } else {
      assert (a + b)[1..] == a[1..] + b && (a + b)[0] == a[0];
      WithKeyConcat(a[1..], b, k);
      var head := if Key(a[0]) == k then [a[0]] else [];
      assert WithKey(a + b, k) == head + WithKey(a[1..] + b, k);
      assert WithKey(a, k) == head + WithKey(a[1..], k);
    }
  }

  lemma {:induction false} WithKeyNone(devs: seq<HostDevice>, k: int)
    requires forall d :: d in devs ==> Key(d) != k
    ensures WithKey(devs, k) == []
  {
    if devs != [] {
      assert devs[0] in devs && forall d :: d in devs[1..] ==> d in devs;
      WithKeyNone(devs[1..], k);
    }
  }

  lemma {:induction false} WithKeyMembers(devs: seq<HostDevice>, k: int)
    ensures forall d :: d in WithKey(devs, k) <==> d in devs && Key(d) == k
  {
    if devs != [] {
      WithKeyMembers(devs[1..], k);
      assert devs == [devs[0]] + devs[1..];
    }
  }

  lemma WithKeyTail(devs: seq<HostDevice>, k: int)
    requires devs != []
    ensures WithKey(devs[1..], k) == if Key(devs[0]) == k then WithKey(devs, k)[1..] else WithKey(devs, k)
    ensures Key(devs[0]) == k ==> WithKey(devs, k) != [] && WithKey(devs, k)[0] == devs[0]
  {
    hide Key;
  }

  /** A stable sort has only one outcome, whatever algorithm finds it. */
  lemma {:induction false} StableSortUnique(a: seq<HostDevice>, b: seq<HostDevice>)
    requires SortedByKey(a) && SortedByKey(b) && forall k :: WithKey(a, k) == WithKey(b, k)
    ensures a == b
  {
    hide Key;
    if a == [] {
      if b != [] {
        WithKeyTail(b, Key(b[0]));
      }
    } else {
      HeadsAgree(a, b);
      assert a == [a[0]] + a[1..] && b == [b[0]] + b[1..];
      forall k
        ensures WithKey(a[1..], k) == WithKey(b[1..], k)
      {
        WithKeyTail(a, k);
        WithKeyTail(b, k);
      }
      StableSortUnique(a[1..], b[1..]);
    }
  }

  lemma HeadsAgree(a: seq<HostDevice>, b: seq<HostDevice>)
    requires a != [] && SortedByKey(a) && SortedByKey(b) && forall k :: WithKey(a, k) == WithKey(b, k)
    ensures b != [] && a[0] == b[0]
  {
    hide Key;
    var k := Key(a[0]);
    WithKeyTail(a, k);
    WithKeyMembers(b, k);
    assert a[0] in WithKey(b, k);
    assert b != [];
    var k' := Key(b[0]);
    WithKeyMembers(a, k');
    WithKeyTail(b, k');
    assert b[0] in WithKey(a, k');
  }

  lemma StableSortNone()
    ensures StableSort([], [])
  {
  }

  /** Insertion sort; each device goes after those with a key not above its own. */
  method SortDevicesByIndex(devs: seq<HostDevice>) returns (sorted: seq<HostDevice>)
    ensures StableSort(devs, sorted)
  {
    hide Key, WithKey;
    sorted := [];
    StableSortNone();
    for i := 0 to |devs|
      invariant StableSort(devs[..i], sorted)
    {
      var d := devs[i];
      var j := |sorted|;
      while j > 0 && Key(sorted[j - 1]) > Key(d)
        invariant 0 <= j <= |sorted|
        invariant forall m :: j <= m < |sorted| ==> Key(sorted[m]) > Key(d)
      {
        j := j - 1;
      }
      assert devs[..i + 1] == devs[..i] + [d];
      InsertStable(devs[..i], sorted, d, j);
      sorted := sorted[..j] + [d] + sorted[j..];
    }
    assert devs[..|devs|] == devs;
  }

  lemma InsertStable(devs: seq<HostDevice>, sorted: seq<HostDevice>, d: HostDevice, j: nat)
    requires StableSort(devs, sorted) && j <= |sorted|
    requires forall m :: j <= m < |sorted| ==> Key(sorted[m]) > Key(d)
    requires j > 0 ==> Key(sorted[j - 1]) <= Key(d)
    ensures StableSort(devs + [d], sorted[..j] + [d] + sorted[j..])
  {
    hide Key, WithKey, SortedByKey;
    InsertKeepsSorted(sorted, d, j);
    assert sorted == sorted[..j] + sorted[j..];
    assert multiset(sorted[..j] + [d] + sorted[j..]) == multiset(sorted[..j] + sorted[j..]) + multiset{d};
    forall k
      ensures WithKey(sorted[..j] + [d] + sorted[j..], k) == WithKey(devs + [d], k)
    {
      InsertKeepsOrder(devs, sorted[..j], sorted[j..], d, k);
    }
  }

  lemma InsertKeepsSorted(sorted: seq<HostDevice>, d: HostDevice, j: nat)
    requires SortedByKey(sorted) && j <= |sorted|
    requires forall m :: j <= m < |sorted| ==> Key(sorted[m]) > Key(d)
    requires j > 0 ==> Key(sorted[j - 1]) <= Key(d)
    ensures SortedByKey(sorted[..j] + [d] + sorted[j..])
  {
    hide Key;
  }

  lemma InsertKeepsOrder(devs: seq<HostDevice>, a: seq<HostDevice>, b: seq<HostDevice>, d: HostDevice, k: int)
    requires WithKey(a + b, k) == WithKey(devs, k)
    requires forall m :: 0 <= m < |b| ==> Key(b[m]) > Key(d)
    ensures WithKey(a + [d] + b, k) == WithKey(devs + [d], k)
  {
    hide Key, WithKey;
    WithKeyConcat(a, b, k);
    WithKeyConcat(a + [d], b, k);
    WithKeyConcat(a, [d], k);
    WithKeyConcat(devs, [d], k);
    if k == Key(d) {
      WithKeyNone(b, k);
    } else {
      WithKeyNone([d], k);
    }
    NothingBetween(WithKey(a, k), WithKey([d], k), WithKey(b, k));
  }

  lemma NothingBetween(x: seq<HostDevice>, y: seq<HostDevice>, z: seq<HostDevice>)
    requires y == [] || z == []
    ensures x + y + z == x + z + y
  {
  }

  /** The devices of one class, in discovery order. */
  function OfClass(devs: seq<HostDevice>, c: DeviceClass): (r: seq<HostDevice>)
    ensures forall d :: d in r <==> d in devs && ParseDeviceClass(d) == c
  {
    if devs == [] then []
    else (if ParseDeviceClass(devs[0]) == c then [devs[0]] else []) + OfClass(devs[1..], c)
  }

  lemma {:induction false} OfClassPush(devs: seq<HostDevice>, d: HostDevice, c: DeviceClass)
    ensures OfClass(devs + [d], c) == OfClass(devs, c) + if ParseDeviceClass(d) == c then [d] else []
  {
    hide ParseDeviceClass;
    if devs != [] {
      assert (devs + [d])[1..] == devs[1..] + [d] && (devs + [d])[0] == devs[0];
      OfClassPush(devs[1..], d, c);
      var head := if ParseDeviceClass(devs[0]) == c then [devs[0]] else [];
      assert OfClass(devs + [d], c) == head + OfClass(devs[1..] + [d], c);
    }
  }

  lemma OfClassNone()
    ensures forall c :: OfClass([], c) == []
  {
  }

  method ClassifyDevices(devs: seq<HostDevice>, disabled: bool) returns (rbln: seq<HostDevice>, rsd: seq<HostDevice>)
    ensures disabled ==> rbln == [] && rsd == []
    ensures !disabled ==> StableSort(OfClass(devs, RBLN), rbln) && StableSort(OfClass(devs, RSD), rsd)
  {
    hide ParseDeviceClass, OfClass, StableSort;
    OfClassNone();
    rbln, rsd := [], [];
    if disabled {
      return;
    }
    for i := 0 to |devs|
      invariant rbln == OfClass(devs[..i], RBLN) && rsd == OfClass(devs[..i], RSD)
    {
      assert devs[..i + 1] == devs[..i] + [devs[i]];
      OfClassPush(devs[..i], devs[i], RBLN);
      OfClassPush(devs[..i], devs[i], RSD);
      match ParseDeviceClass(devs[i])
      case RBLN => rbln := rbln + [devs[i]];
      case RSD => rsd := rsd + [devs[i]];
      case _ =>
    }
    assert devs[..|devs|] == devs;
    rbln := SortDevicesByIndex(rbln);
    rsd := SortDevicesByIndex(rsd);
  }

  method ClassifyRblnfs(devs: seq<HostDevice>) returns (rblnfs: seq<HostDevice>)
    ensures StableSort(OfClass(devs, RBLNFS), rblnfs)
  {
    hide ParseDeviceClass, OfClass, StableSort;
    OfClassNone();
    rblnfs := [];
    for i := 0 to |devs|
      invariant rblnfs == OfClass(devs[..i], RBLNFS)
    {
      assert devs[..i + 1] == devs[..i] + [devs[i]];
      OfClassPush(devs[..i], devs[i], RBLNFS);
      if ParseDeviceClass(devs[i]) == RBLNFS {
        rblnfs := rblnfs + [devs[i]];
      }
    }
    assert devs[..|devs|] == devs;
    rblnfs := SortDevicesByIndex(rblnfs);
  }

  function Node(dev: HostDevice): DeviceNode {
    DeviceNode(dev.containerPath, dev.path, "rw")
  }

  /** An RSD group as the driver library looks it up: always at /dev/rsd0. */
  function AliasNode(dev: HostDevice): DeviceNode {
    Node(dev).(path := RSD_CONTAINER_PATH)
  }

  function OnlyNodes(nodes: seq<DeviceNode>): Edits {
    NO_EDITS.(deviceNodes := nodes)
  }

  function Nodes(devs: seq<HostDevice>): (nodes: seq<DeviceNode>)
    ensures |nodes| == |devs|
  {
    seq(|devs|, i requires 0 <= i < |devs| => Node(devs[i]))
  }

  /** The driver's topology: NPU index to RSD group index. */
  type Resolver = nat -> Option<nat>

  /** The discovered group device the map of indexRSDDevices holds for an index. */
  function GroupAt(rsd: seq<HostDevice>, index: nat): Option<HostDevice> {
    if rsd == [] then None
    else
      var last := rsd[|rsd| - 1];
      if ParseUint32(DeviceIndex(last)) == Some(index) then Some(last) else GroupAt(rsd[..|rsd| - 1], index)
  }

  method IndexRsdDevices(rsd: seq<HostDevice>) returns (byIndex: map<nat, HostDevice>)
    ensures forall index :: GroupAt(rsd, index) == if index in byIndex then Some(byIndex[index]) else None
  {
    hide ParseUint32, DeviceIndex;
    byIndex := map[];
    for i := 0 to |rsd|
      invariant forall index :: GroupAt(rsd[..i], index) == if index in byIndex then Some(byIndex[index]) else None
    {
      assert rsd[..i + 1][..i] == rsd[..i];
      var index := ParseUint32(DeviceIndex(rsd[i]));
      if index.Some? {
        byIndex := byIndex[index.value := rsd[i]];
      }
    }
    assert rsd[..|rsd|] == rsd;
  }

  function ResolveRsdFor(npu: HostDevice, rsd: seq<HostDevice>, resolver: Resolver): Option<HostDevice> {
    match ParseUint32(DeviceIndex(npu))
    case None => None
    case Some(index) =>
      match resolver(index)
      case None => None
      case Some(group) => GroupAt(rsd, group)
  }

  function NpuEntry(npu: HostDevice, rsd: seq<HostDevice>, resolver: Resolver): Device {
    var group := ResolveRsdFor(npu, rsd, resolver);
    Device(DeviceIndex(npu), OnlyNodes([Node(npu)] + if group.Some? then [AliasNode(group.value)] else []))
  }

  function RsdEntry(dev: HostDevice): Device {
    Device("rsd" + DeviceIndex(dev), OnlyNodes([AliasNode(dev)]))
  }

  function RblnfsEntry(dev: HostDevice): Device {
    Device("rblnfs" + DeviceIndex(dev), OnlyNodes([Node(dev)]))
  }

  function NpuEntries(rbln: seq<HostDevice>, rsd: seq<HostDevice>, resolver: Resolver): (es: seq<Device>)
    ensures |es| == |rbln|
  {
    seq(|rbln|, i requires 0 <= i < |rbln| => NpuEntry(rbln[i], rsd, resolver))
  }

  function RsdEntries(rsd: seq<HostDevice>): (es: seq<Device>)
    ensures |es| == |rsd|
  {
    seq(|rsd|, i requires 0 <= i < |rsd| => RsdEntry(rsd[i]))
  }

  function RblnfsEntries(devs: seq<HostDevice>): (es: seq<Device>)
    ensures |es| == |devs|
  {
    seq(|devs|, i requires 0 <= i < |devs| => RblnfsEntry(devs[i]))
  }

  /** All entries of the NPU spec. */
  function DeviceEntries(rbln: seq<HostDevice>, rsd: seq<HostDevice>, resolver: Resolver): seq<Device> {
    var everything := OnlyNodes(Nodes(rbln) + Nodes(rsd));
    NpuEntries(rbln, rsd, resolver) + RsdEntries(rsd) + [Device(ALL, everything), Device(LEGACY_RUNTIME, everything)]
  }

  method BuildDeviceEntries(rbln: seq<HostDevice>, rsd: seq<HostDevice>, resolver: Resolver)
    returns (devices: seq<Device>)
    ensures devices == DeviceEntries(rbln, rsd, resolver)
  {
    hide DeviceIndex, ParseUint32, GroupAt;
    var byIndex := IndexRsdDevices(rsd);
    devices := [];
    for i := 0 to |rbln|
      invariant devices == NpuEntries(rbln, rsd, resolver)[..i]
    {
      var nodes := [Node(rbln[i])];
      var index := ParseUint32(DeviceIndex(rbln[i]));
      if index.Some? {
        var group := resolver(index.value);
        if group.Some? && group.value in byIndex {
          nodes := nodes + [AliasNode(byIndex[group.value])];
        }
      }
      devices := devices + [Device(DeviceIndex(rbln[i]), OnlyNodes(nodes))];
      assert devices[i] == NpuEntry(rbln[i], rsd, resolver);
    }
    var npus := devices;
    for i := 0 to |rsd|
      invariant devices == npus + RsdEntries(rsd)[..i]
    {
      devices := devices + [RsdEntry(rsd[i])];
      assert RsdEntries(rsd)[..i + 1] == RsdEntries(rsd)[..i] + [RsdEntry(rsd[i])];
    }
    assert devices == NpuEntries(rbln, rsd, resolver) + RsdEntries(rsd);
    var nodes: seq<DeviceNode> := [];
    for i := 0 to |rbln|
      invariant nodes == Nodes(rbln)[..i]
    {
      nodes := nodes + [Node(rbln[i])];
    }
    for i := 0 to |rsd|
      invariant nodes == Nodes(rbln) + Nodes(rsd)[..i]
    {
      nodes := nodes + [Node(rsd[i])];
      assert Nodes(rsd)[..i + 1] == Nodes(rsd)[..i] + [Node(rsd[i])];
    }
    assert nodes == Nodes(rbln) + Nodes(rsd);
    devices := devices + [Device(ALL, OnlyNodes(nodes)), Device(LEGACY_RUNTIME, OnlyNodes(nodes))];
  }

  function RblnfsSpecDevices(rblnfs: seq<HostDevice>): seq<Device> {
    RblnfsEntries(rblnfs) + [Device(ALL, OnlyNodes(Nodes(rblnfs)))]
  }

  method BuildRblnfsDeviceEntries(rblnfs: seq<HostDevice>) returns (devices: seq<Device>)
    ensures devices == RblnfsSpecDevices(rblnfs)
  {
    hide DeviceIndex, Node, OnlyNodes;
    devices := [];
    var nodes: seq<DeviceNode> := [];
    for i := 0 to |rblnfs|
      invariant devices == RblnfsEntries(rblnfs)[..i] && nodes == Nodes(rblnfs)[..i]
    {
      devices := devices + [RblnfsEntry(rblnfs[i])];
      nodes := nodes + [Node(rblnfs[i])];
    }
    assert devices == RblnfsEntries(rblnfs) && nodes == Nodes(rblnfs);
    devices := devices + [Device(ALL, OnlyNodes(nodes))];
  }

  /** The RDS spec's devices, None when the host has no RDS device. */
  method GenerateRdsDevices(devs: seq<HostDevice>) returns (devices: Option<seq<Device>>, rblnfs: seq<HostDevice>)
    ensures StableSort(OfClass(devs, RBLNFS), rblnfs)
    ensures devices == if rblnfs == [] then None else Some(RblnfsSpecDevices(rblnfs))
  {
    hide RblnfsSpecDevices, StableSort, OfClass;
    rblnfs := ClassifyRblnfs(devs);
    if |rblnfs| == 0 {
      return None, rblnfs;
    }
    var entries := BuildRblnfsDeviceEntries(rblnfs);
    return Some(entries), rblnfs;
  }

  ghost predicate DistinctBases(devs: seq<HostDevice>) {
    forall i, j :: 0 <= i < j < |devs| ==> Base(devs[i].containerPath) != Base(devs[j].containerPath)
  }

  ghost predicate AllOfClass(devs: seq<HostDevice>, c: DeviceClass) {
    forall d :: d in devs ==> ParseDeviceClass(d) == c
  }

  ghost predicate DistinctNames(devices: seq<Device>) {
    forall i, j :: 0 <= i < j < |devices| ==> devices[i].name != devices[j].name
  }

  /** A numeric index is no reserved word and cannot start like an RSD entry. */
  lemma IndexIsNoWord(s: string)
    requires Atoi(s).Some?
    ensures s != "" && (IsDigit(s[0]) || s[0] == '-' || s[0] == '+')
  {
    LetterIsNotNumeric(s);
  }

  lemma IndexNamesBase(a: HostDevice, b: HostDevice, c: DeviceClass)
    requires c != Unknown && ParseDeviceClass(a) == c && ParseDeviceClass(b) == c
    ensures DeviceIndex(a) == DeviceIndex(b) <==> Base(a.containerPath) == Base(b.containerPath)
  {
    hide ParseDeviceClass, DeviceIndex, Base;
    ClassifiedName(a);
    ClassifiedName(b);
    var p := ClassPrefix(c);
    assert (p + DeviceIndex(a))[|p|..] == DeviceIndex(a) && (p + DeviceIndex(b))[|p|..] == DeviceIndex(b);
  }

  lemma EntryNameShape(d: HostDevice, c: DeviceClass)
    requires c != Unknown && ParseDeviceClass(d) == c
    ensures DeviceIndex(d) != "" && DeviceIndex(d)[0] != 'r' && DeviceIndex(d)[0] != 'a'
  {
    hide ParseDeviceClass, DeviceIndex;
    ClassifiedName(d);
    IndexIsNoWord(DeviceIndex(d));
  }

  lemma DistinctConcat(a: seq<Device>, b: seq<Device>)
    requires forall x, y :: x in a && y in b ==> x.name != y.name
    ensures DistinctNames(a + b) <==> DistinctNames(a) && DistinctNames(b)
  {
    assert (a + b)[..|a|] == a && (a + b)[|a|..] == b;
    if DistinctNames(a + b) {
      forall i, j | 0 <= i < j < |b|
        ensures b[i].name != b[j].name
      {
        assert (a + b)[|a| + i] == b[i] && (a + b)[|a| + j] == b[j];
      }
    }
  }

  /** One entry a device, each named by its index. */
  ghost predicate NamedByIndex(devs: seq<HostDevice>, prefix: string, es: seq<Device>) {
    |es| == |devs| && forall i :: 0 <= i < |es| ==> es[i].name == prefix + DeviceIndex(devs[i])
  }

  /** Within a class entry names are unique exactly when basenames are. */
  lemma ClassNames(devs: seq<HostDevice>, c: DeviceClass, prefix: string, es: seq<Device>)
    requires c != Unknown && AllOfClass(devs, c) && NamedByIndex(devs, prefix, es)
    ensures DistinctNames(es) <==> DistinctBases(devs)
    ensures forall e :: e in es ==> |e.name| > |prefix| && e.name[|prefix|] != 'r' && e.name[|prefix|] != 'a'
  {
    hide ParseDeviceClass, DeviceIndex, Base;
    forall i | 0 <= i < |es|
      ensures es[i].name[|prefix|..] == DeviceIndex(devs[i])
      ensures |es[i].name| > |prefix| && es[i].name[|prefix|] != 'r' && es[i].name[|prefix|] != 'a'
    {
      assert devs[i] in devs;
      EntryNameShape(devs[i], c);
    }
    forall i, j | 0 <= i < j < |es|
      ensures es[i].name == es[j].name <==> Base(devs[i].containerPath) == Base(devs[j].containerPath)
    {
      assert devs[i] in devs && devs[j] in devs;
      IndexNamesBase(devs[i], devs[j], c);
    }
  }

  lemma EntriesNamed(rbln: seq<HostDevice>, rsd: seq<HostDevice>, resolver: Resolver)
    ensures NamedByIndex(rbln, "", NpuEntries(rbln, rsd, resolver))
    ensures NamedByIndex(rsd, "rsd", RsdEntries(rsd))
    ensures NamedByIndex(rsd, "rblnfs", RblnfsEntries(rsd))
  {
    hide DeviceIndex, OnlyNodes, ResolveRsdFor;
    assert forall s: string :: "" + s == s;
  }

  /** Having distinct basenames does not depend on the order. */
  lemma DistinctBasesPermuted(a: seq<HostDevice>, b: seq<HostDevice>)
    requires multiset(a) == multiset(b) && DistinctBases(a)
    ensures DistinctBases(b)
  {
    hide Base;
    forall i, j | 0 <= i < j < |b|
      ensures Base(b[i].containerPath) != Base(b[j].containerPath)
    {
      assert b[i] in multiset(b) && b[j] in multiset(b);
      assert b[i] in a && b[j] in a;
      if b[i] == b[j] {
        Twice(b, i, j);
        OnceEach(a, b[i]);
      }
    }
  }

  lemma SortedClass(devs: seq<HostDevice>, c: DeviceClass, sorted: seq<HostDevice>)
    requires StableSort(OfClass(devs, c), sorted)
    ensures AllOfClass(sorted, c)
    ensures DistinctBases(sorted) <==> DistinctBases(OfClass(devs, c))
  {
    hide ParseDeviceClass, Base, Key, WithKey, DistinctBases;
    SortKeepsDevices(OfClass(devs, c), sorted);
    if DistinctBases(sorted) {
      DistinctBasesPermuted(sorted, OfClass(devs, c));
    }
    if DistinctBases(OfClass(devs, c)) {
      DistinctBasesPermuted(OfClass(devs, c), sorted);
    }
  }

  /** The entry names of the NPU spec, reserved names included, are unique exactly
      when within each class the discovered devices have distinct basenames. */
  lemma EntryNamesUnique(devs: seq<HostDevice>, rbln: seq<HostDevice>, rsd: seq<HostDevice>, resolver: Resolver)
    requires StableSort(OfClass(devs, RBLN), rbln) && StableSort(OfClass(devs, RSD), rsd)
    ensures DistinctNames(DeviceEntries(rbln, rsd, resolver))
      <==> DistinctBases(OfClass(devs, RBLN)) && DistinctBases(OfClass(devs, RSD))
  {
    hide StableSort, OfClass, AllOfClass, DistinctBases, NamedByIndex, NpuEntries, RsdEntries, OnlyNodes, Nodes;
    hide DistinctNames;
    SortedClass(devs, RBLN, rbln);
    SortedClass(devs, RSD, rsd);
    EntriesNamed(rbln, rsd, resolver);
    EntriesNamed(rsd, rsd, resolver);
    var npus, rsds := NpuEntries(rbln, rsd, resolver), RsdEntries(rsd);
    ClassNames(rbln, RBLN, "", npus);
    ClassNames(rsd, RSD, "rsd", rsds);
    RsdPrefix(rsd);
    var everything := OnlyNodes(Nodes(rbln) + Nodes(rsd));
    UmbrellaNames(everything);
    DistinctConcat(npus, rsds);
    DistinctConcat(npus + rsds, [Device(ALL, everything), Device(LEGACY_RUNTIME, everything)]);
  }

  lemma RsdPrefix(rsd: seq<HostDevice>)
    ensures forall e :: e in RsdEntries(rsd) ==> |e.name| >= 3 && e.name[0] == 'r' && e.name[1] == 's'
  {
    hide DeviceIndex, OnlyNodes;
  }

  /** So are those of the RDS spec. */
  lemma RdsNamesUnique(devs: seq<HostDevice>, rblnfs: seq<HostDevice>)
    requires StableSort(OfClass(devs, RBLNFS), rblnfs)
    ensures DistinctNames(RblnfsSpecDevices(rblnfs)) <==> DistinctBases(OfClass(devs, RBLNFS))
  {
    hide StableSort, OfClass, AllOfClass, DistinctBases, NamedByIndex, RblnfsEntries, OnlyNodes, Nodes, DistinctNames;
    SortedClass(devs, RBLNFS, rblnfs);
    EntriesNamed(rblnfs, rblnfs, _ => None);
    ClassNames(rblnfs, RBLNFS, "rblnfs", RblnfsEntries(rblnfs));
    RblnfsPrefix(rblnfs);
    UmbrellaNames(OnlyNodes(Nodes(rblnfs)));
    DistinctConcat(RblnfsEntries(rblnfs), [Device(ALL, OnlyNodes(Nodes(rblnfs)))]);
  }

  lemma RblnfsPrefix(rblnfs: seq<HostDevice>)
    ensures forall e :: e in RblnfsEntries(rblnfs) ==> |e.name| >= 6 && e.name[0] == 'r'
  {
    hide DeviceIndex, OnlyNodes;
  }

  lemma UmbrellaNames(edits: Edits)
    ensures DistinctNames([Device(ALL, edits), Device(LEGACY_RUNTIME, edits)]) && DistinctNames([Device(ALL, edits)])
    ensures ALL[0] == 'a' && LEGACY_RUNTIME[0] == 'r' && LEGACY_RUNTIME[1] == 'u'
  {
  }

  ghost predicate DistinctUint32(devs: seq<HostDevice>) {
    forall i, j :: 0 <= i < j < |devs| && ParseUint32(DeviceIndex(devs[i])).Some? ==>
      ParseUint32(DeviceIndex(devs[i])) != ParseUint32(DeviceIndex(devs[j]))
  }

  /** The index map finds exactly the discovered group with that number. */
  lemma {:induction false} GroupAtFinds(rsd: seq<HostDevice>, index: nat, d: HostDevice)
    requires DistinctUint32(rsd)
    ensures GroupAt(rsd, index) == Some(d) <==> d in rsd && ParseUint32(DeviceIndex(d)) == Some(index)
  {
    hide ParseUint32, DeviceIndex;
    if rsd != [] {
      var front, last := rsd[..|rsd| - 1], rsd[|rsd| - 1];
      assert rsd == front + [last];
      GroupAtFinds(front, index, d);
      if d in front {
        var i :| 0 <= i < |front| && front[i] == d;
        assert rsd[i] == d;
      }
    }
  }

  /** A per-NPU entry holds its own node at its identity path and, exactly when
      the driver's topology names a discovered group, that group's node at
      /dev/rsd0. */
  lemma NpuEntryNodes(npu: HostDevice, rsd: seq<HostDevice>, resolver: Resolver, group: HostDevice)
    requires DistinctUint32(rsd)
    ensures var nodes := NpuEntry(npu, rsd, resolver).edits.deviceNodes;
      && (nodes == [Node(npu), AliasNode(group)] <== Assigned(npu, rsd, resolver, group))
      && (nodes == [Node(npu)] <==> forall g :: !Assigned(npu, rsd, resolver, g))
    ensures Node(npu) == DeviceNode(npu.containerPath, npu.path, "rw")
    ensures AliasNode(group) == DeviceNode("/dev/rsd0", group.path, "rw")
  {
    hide ParseUint32, DeviceIndex, GroupAt;
    var found := ResolveRsdFor(npu, rsd, resolver);
    forall g
      ensures Assigned(npu, rsd, resolver, g) <==> found == Some(g)
    {
      var index := ParseUint32(DeviceIndex(npu));
      if index.Some? && resolver(index.value).Some? {
        GroupAtFinds(rsd, resolver(index.value).value, g);
      }
    }
    if found.Some? {
      assert Assigned(npu, rsd, resolver, found.value);
      assert |NpuEntry(npu, rsd, resolver).edits.deviceNodes| == 2;
    }
  }

  /** An RSD entry holds its group's node at /dev/rsd0, an RDS entry its own node at
      its identity path, and the old name `runtime` stands for everything. */
  lemma OtherEntryNodes(dev: HostDevice, rbln: seq<HostDevice>, rsd: seq<HostDevice>, resolver: Resolver)
    ensures RsdEntry(dev).edits == NO_EDITS.(deviceNodes := [DeviceNode("/dev/rsd0", dev.path, "rw")])
    ensures RblnfsEntry(dev).edits == NO_EDITS.(deviceNodes := [DeviceNode(dev.containerPath, dev.path, "rw")])
    ensures var es := DeviceEntries(rbln, rsd, resolver);
      |es| == |rbln| + |rsd| + 2 && es[|es| - 1] == es[|es| - 2].(name := "runtime") && es[|es| - 2].name == "all"
  {
    hide DeviceIndex, NpuEntry;
  }

  /** The topology assigns this discovered group to this NPU. */
  ghost predicate Assigned(npu: HostDevice, rsd: seq<HostDevice>, resolver: Resolver, group: HostDevice) {
    var index := ParseUint32(DeviceIndex(npu));
    && index.Some? && resolver(index.value).Some? && group in rsd
    && ParseUint32(DeviceIndex(group)) == resolver(index.value)
  }

  /** The umbrella entry of a spec. */
  ghost predicate IsUmbrella(devices: seq<Device>, e: Device) {
    e in devices && e.name == ALL
  }

  lemma {:induction false} NodeCount(devs: seq<HostDevice>, n: DeviceNode)
    ensures multiset(Nodes(devs))[n]
      == if n.permissions == "rw" then multiset(devs)[HostDevice(n.hostPath, n.path)] else 0
  {
    if devs == [] {
      assert Nodes(devs) == [];
    } else {
      assert devs == [devs[0]] + devs[1..];
      assert Nodes(devs) == [Node(devs[0])] + Nodes(devs[1..]);
      NodeCount(devs[1..], n);
    }
  }

  lemma UmbrellaNodes(rbln: seq<HostDevice>, rsd: seq<HostDevice>, resolver: Resolver, e: Device)
    requires AllOfClass(rbln, RBLN) && AllOfClass(rsd, RSD)
    ensures IsUmbrella(DeviceEntries(rbln, rsd, resolver), e) <==> e == Device(ALL, OnlyNodes(Nodes(rbln + rsd)))
  {
    hide NamedByIndex, NpuEntries, RsdEntries, AllOfClass, OnlyNodes;
    EntriesNamed(rbln, rsd, resolver);
    ClassNames(rbln, RBLN, "", NpuEntries(rbln, rsd, resolver));
    RsdPrefix(rsd);
    assert Nodes(rbln) + Nodes(rsd) == Nodes(rbln + rsd);
  }

  lemma RdsUmbrellaNodes(rblnfs: seq<HostDevice>, e: Device)
    ensures IsUmbrella(RblnfsSpecDevices(rblnfs), e) <==> e == Device(ALL, OnlyNodes(Nodes(rblnfs)))
  {
    hide RblnfsEntries, OnlyNodes, Nodes;
    RblnfsPrefix(rblnfs);
  }

  /** The entries called `all` of the NPU spec and of the RDS spec, one each, list
      every classified device exactly once between them, at its identity path, and
      share no node. */
  lemma SpecsSplitDevices(devs: seq<HostDevice>, rbln: seq<HostDevice>, rsd: seq<HostDevice>,
                          rblnfs: seq<HostDevice>, resolver: Resolver)
    returns (npuAll: Device, rdsAll: Device)
    requires StableSort(OfClass(devs, RBLN), rbln) && StableSort(OfClass(devs, RSD), rsd)
    requires StableSort(OfClass(devs, RBLNFS), rblnfs)
    ensures forall e :: IsUmbrella(DeviceEntries(rbln, rsd, resolver), e) <==> e == npuAll
    ensures forall e :: IsUmbrella(RblnfsSpecDevices(rblnfs), e) <==> e == rdsAll
    ensures multiset(npuAll.edits.deviceNodes + rdsAll.edits.deviceNodes) == multiset(Nodes(Classified(devs)))
    ensures forall n :: n in npuAll.edits.deviceNodes ==> n !in rdsAll.edits.deviceNodes
    ensures npuAll.edits == OnlyNodes(npuAll.edits.deviceNodes) && rdsAll.edits == OnlyNodes(rdsAll.edits.deviceNodes)
  {
    hide ParseDeviceClass, StableSort, OfClass, Classified, Nodes, AllOfClass, IsUmbrella, DeviceEntries;
    hide RblnfsSpecDevices;
    npuAll, rdsAll := Device(ALL, OnlyNodes(Nodes(rbln + rsd))), Device(ALL, OnlyNodes(Nodes(rblnfs)));
    SortedClass(devs, RBLN, rbln);
    SortedClass(devs, RSD, rsd);
    forall e
      ensures IsUmbrella(DeviceEntries(rbln, rsd, resolver), e) <==> e == npuAll
      ensures IsUmbrella(RblnfsSpecDevices(rblnfs), e) <==> e == rdsAll
    {
      UmbrellaNodes(rbln, rsd, resolver, e);
      RdsUmbrellaNodes(rblnfs, e);
    }
    ClassesSplit(devs, rbln, rsd, rblnfs);
    var npus, rds := Nodes(rbln + rsd), Nodes(rblnfs);
    forall n: DeviceNode
      ensures multiset(npus + rds)[n] == multiset(Nodes(Classified(devs)))[n]
      ensures n in npus ==> n !in rds
    {
      NodeCount(rbln + rsd, n);
      NodeCount(rblnfs, n);
      NodeCount(Classified(devs), n);
      assert n in npus <==> n in multiset(npus);
      assert n in rds <==> n in multiset(rds);
      assert multiset(npus + rds)[n] == multiset(npus)[n] + multiset(rds)[n];
      var d := HostDevice(n.hostPath, n.path);
      assert d in multiset(rbln + rsd) <==> d in rbln + rsd;
      assert d in multiset(rblnfs) <==> d in rblnfs;
      assert multiset(rbln + rsd + rblnfs)[d] == multiset(rbln + rsd)[d] + multiset(rblnfs)[d];
    }
  }

  lemma ClassesSplit(devs: seq<HostDevice>, rbln: seq<HostDevice>, rsd: seq<HostDevice>, rblnfs: seq<HostDevice>)
    requires StableSort(OfClass(devs, RBLN), rbln) && StableSort(OfClass(devs, RSD), rsd)
    requires StableSort(OfClass(devs, RBLNFS), rblnfs)
    ensures multiset(rbln + rsd + rblnfs) == multiset(Classified(devs))
    ensures forall d :: d in rbln + rsd ==> d !in rblnfs
  {
    hide ParseDeviceClass, StableSort, OfClass, Classified, Node;
    ClassesPartition(devs);
    SortKeepsDevices(OfClass(devs, RBLN), rbln);
    SortKeepsDevices(OfClass(devs, RSD), rsd);
    SortKeepsDevices(OfClass(devs, RBLNFS), rblnfs);
    assert multiset(rbln + rsd + rblnfs) == multiset(rbln) + multiset(rsd) + multiset(rblnfs);
  }

  lemma SortKeepsDevices(devs: seq<HostDevice>, sorted: seq<HostDevice>)
    requires StableSort(devs, sorted)
    ensures multiset(sorted) == multiset(devs)
    ensures forall d :: d in sorted <==> d in devs
  {
    forall d
      ensures d in sorted <==> d in devs
    {
      assert d in multiset(sorted) <==> d in multiset(devs);
    }
  }

  function Classified(devs: seq<HostDevice>): seq<HostDevice> {
    if devs == [] then []
    else (if ParseDeviceClass(devs[0]) != Unknown then [devs[0]] else []) + Classified(devs[1..])
  }

  lemma {:induction false} ClassesPartition(devs: seq<HostDevice>)
    ensures multiset(Classified(devs))
      == multiset(OfClass(devs, RBLN)) + multiset(OfClass(devs, RSD)) + multiset(OfClass(devs, RBLNFS))
  {
    hide ParseDeviceClass;
    if devs != [] {
      ClassesPartition(devs[1..]);
    }
  }
}
