/** Translation of a Pod into a virtual machine instance.

    Several passes append to one VMI object.  This module proves that disks and
    volumes, and interfaces and networks, stay in one-to-one correspondence
    whatever the passes report, that every PVC gets exactly one disk, and what
    the resource arithmetic guarantees. */
module Translate {
  import opened Words
  import opened Options
  import opened Strings
  import opened Pods
  import opened Volumes
  import opened Mounts
  import Capacity

  const ROOT_DISK := "rootdisk"
  const USER_ROOTFS := "user-rootfs"
  const DEFAULT_NET := "default"
  const MIB: int := 1024 * 1024
  const MIN_GUEST_MEMORY: int := 512 * MIB
  const TEE_SLOP: int := 256 * MIB

  datatype Tee = Off | Snp | Tdx | OtherTee

  datatype Disk = Disk(name: string, serial: string)

  datatype Source = ContainerDisk | ClaimDisk(claim: Claim) | EmptyDisk(capacity: int)

  datatype VmVolume = VmVolume(name: string, source: Source)

  datatype Input = Input(pod: Pod, rootfsBytes: Int64, tee: Tee,
                         podNad: string, defaultNad: string, resourceClaims: nat)

  // ---------------------------------------------------------------- names

  predicate HasPrefix(s: string, p: string) { p <= s }

  function SriovName(i: nat): string { "sriov-" + Itoa(i) }

  function VolName(v: Volume): string { "vol-" + v.name }

  ghost predicate NoDuplicates(xs: seq<string>) {
    forall i, j :: 0 <= i < j < |xs| ==> xs[i] != xs[j]
  }

  function DiskNames(ds: seq<Disk>): seq<string> { seq(|ds|, i requires 0 <= i < |ds| => ds[i].name) }

  function VmNames(vs: seq<VmVolume>): seq<string> { seq(|vs|, i requires 0 <= i < |vs| => vs[i].name) }

  // ---------------------------------------------------------------- disks and volumes

  /** RootfsPVC: the claim of the first volume named `rootfs` that is a PVC. */
  function RootfsClaim(vs: seq<Volume>, rootfs: string): Option<Claim> {
    if vs == [] then None
    else if vs[0].name == rootfs && vs[0].pvc.Some? then vs[0].pvc
    else RootfsClaim(vs[1..], rootfs)
  }

  function UserRootfsClaim(p: Pod): Option<Claim> {
    if p.rootfsVolume == "" then None else RootfsClaim(Restore(p).volumes, p.rootfsVolume)
  }

  function WorkloadCount(p: Pod): int {
    var n := |p.containers| + |p.inits|;
    if n < 1 then 1 else n
  }

  predicate UserRootfsFails(p: Pod) {
    p.rootfsVolume != "" && UserRootfsClaim(p).None?
  }

  function UserRootfsSource(input: Input): Source
    requires WorkloadCount(input.pod) <= Capacity.MAX_WORKLOADS
  {
    if UserRootfsClaim(input.pod).Some? then ClaimDisk(UserRootfsClaim(input.pod).value)
    else EmptyDisk(Capacity.CapacityN(input.rootfsBytes, WorkloadCount(input.pod)))
  }

  predicate Attached(v: Volume, rootfs: string) {
    v.pvc.Some? && !IsRootfs(v, rootfs)
  }

  /** The PVCs that become disks, in order. */
  function AttachedOf(vs: seq<Volume>, rootfs: string): seq<Volume> {
    if vs == [] then []
    else AttachedOf(vs[..|vs| - 1], rootfs) + if Attached(vs[|vs| - 1], rootfs) then [vs[|vs| - 1]] else []
  }

  function DisksFor(vs: seq<Volume>): seq<Disk> {
    seq(|vs|, i requires 0 <= i < |vs| => Disk(VolName(vs[i]), DiskSerial(vs[i].name)))
  }

  function ClaimsFor(vs: seq<Volume>): seq<VmVolume>
    requires forall v :: v in vs ==> v.pvc.Some?
  {
    seq(|vs|, i requires 0 <= i < |vs| => VmVolume(VolName(vs[i]), ClaimDisk(vs[i].pvc.value)))
  }

  lemma {:induction false} AttachedIn(vs: seq<Volume>, rootfs: string)
    ensures forall v :: v in AttachedOf(vs, rootfs) <==> v in vs && Attached(v, rootfs)
  {
    if vs != [] {
      AttachedIn(vs[..|vs| - 1], rootfs);
      assert vs == vs[..|vs| - 1] + [vs[|vs| - 1]];
    }
  }

  lemma {:induction false} AttachedDistinct(vs: seq<Volume>, rootfs: string)
    requires DistinctVolumes(vs)
    ensures DistinctVolumes(AttachedOf(vs, rootfs))
  {
    if vs != [] {
      var init, v := vs[..|vs| - 1], vs[|vs| - 1];
      AttachedDistinct(init, rootfs);
      AttachedIn(init, rootfs);
      var a := AttachedOf(init, rootfs);
      forall i | 0 <= i < |a| ensures a[i].name != v.name {
        assert a[i] in a;
        var k :| 0 <= k < |init| && init[k] == a[i];
        assert vs[k] == a[i];
      }
    }
  }

  /** The boot disk and, unless it is in error, the user root filesystem. */
  function BaseDisks(input: Input): seq<Disk> {
    [Disk(ROOT_DISK, "")]
    + if UserRootfsFails(input.pod) then [] else [Disk(USER_ROOTFS, USER_ROOTFS_SERIAL)]
  }

  function BaseVolumes(input: Input): seq<VmVolume>
    requires WorkloadCount(input.pod) <= Capacity.MAX_WORKLOADS
  {
    [VmVolume(ROOT_DISK, ContainerDisk)]
    + if UserRootfsFails(input.pod) then [] else [VmVolume(USER_ROOTFS, UserRootfsSource(input))]
  }

  function DiskList(input: Input): seq<Disk> {
    var src := Restore(input.pod);
    BaseDisks(input) + DisksFor(AttachedOf(src.volumes, src.rootfsVolume))
  }

  function VolumeList(input: Input): seq<VmVolume>
    requires WorkloadCount(input.pod) <= Capacity.MAX_WORKLOADS
  {
    var src := Restore(input.pod);
    AttachedIn(src.volumes, src.rootfsVolume);
    BaseVolumes(input) + ClaimsFor(AttachedOf(src.volumes, src.rootfsVolume))
  }

  /** Restoration keeps names distinct when the Pod's and the snapshot's are. */
  lemma RestoredDistinct(p: Pod)
    requires DistinctVolumes(p.volumes)
    requires p.note.Holds? ==> DistinctVolumes(p.note.snapshot.volumes)
    ensures DistinctVolumes(Restore(p).volumes)
  {
    if p.note.Holds? {
      var snap := p.note.snapshot.volumes;
      var have := VolumeNames(p.volumes);
      MissingDistinct(snap, have);
      MissingIn(snap, have);
      var more := Missing(snap, have);
      forall i, j | 0 <= i < |p.volumes| && 0 <= j < |more| ensures p.volumes[i].name != more[j].name {
        assert p.volumes[i] in p.volumes && p.volumes[i].name in have && more[j] in more;
      }
    }
  }

  lemma {:induction false} MissingDistinct(vs: seq<Volume>, have: set<string>)
    requires DistinctVolumes(vs)
    ensures DistinctVolumes(Missing(vs, have))
  {
    if vs != [] {
      var init, v := vs[..|vs| - 1], vs[|vs| - 1];
      MissingDistinct(init, have);
      MissingIn(init, have);
      var a := Missing(init, have);
      forall i | 0 <= i < |a| ensures a[i].name != v.name {
        assert a[i] in a;
        var k :| 0 <= k < |init| && init[k] == a[i];
        assert vs[k] == a[i];
      }
    }
  }

  function VolNames(vs: seq<Volume>): seq<string> {
    seq(|vs|, i requires 0 <= i < |vs| => VolName(vs[i]))
  }

  lemma VolNamesDistinct(vs: seq<Volume>)
    requires DistinctVolumes(vs)
    ensures NoDuplicates(VolNames(vs)) && forall n :: n in VolNames(vs) ==> |n| > 0 && n[0] == 'v'
  {
    forall i, j | 0 <= i < j < |vs| ensures VolName(vs[i]) != VolName(vs[j]) {
      assert VolName(vs[i])[4..] == vs[i].name && VolName(vs[j])[4..] == vs[j].name;
    }
    forall n | n in VolNames(vs) ensures |n| > 0 && n[0] == 'v' {
      var i :| 0 <= i < |vs| && VolNames(vs)[i] == n;
      assert n == VolName(vs[i]);
    }
  }

  lemma ConcatDistinct(xs: seq<string>, ys: seq<string>)
    requires NoDuplicates(xs) && NoDuplicates(ys) && forall x :: x in xs ==> x !in ys
    ensures NoDuplicates(xs + ys)
  {
    forall i, j | 0 <= i < j < |xs + ys| ensures (xs + ys)[i] != (xs + ys)[j] {
      if i < |xs| <= j { assert xs[i] in xs && ys[j - |xs|] in ys; }
    }
  }

  /** The fixed disks' names, then one per attached PVC. */
  function NameList(input: Input): seq<string> {
    var src := Restore(input.pod);
    (if UserRootfsFails(input.pod) then [ROOT_DISK] else [ROOT_DISK, USER_ROOTFS])
    + VolNames(AttachedOf(src.volumes, src.rootfsVolume))
  }

  lemma NamesOfLists(input: Input)
    requires WorkloadCount(input.pod) <= Capacity.MAX_WORKLOADS
    ensures DiskNames(DiskList(input)) == NameList(input)
    ensures VmNames(VolumeList(input)) == NameList(input)
  {
    var src := Restore(input.pod);
    AttachedIn(src.volumes, src.rootfsVolume);
  }

  /** Disks and volumes correspond by name, position by position, and no name
      occurs twice -- also when the user root filesystem is in error. */
  lemma DisksMatchVolumes(input: Input)
    requires WorkloadCount(input.pod) <= Capacity.MAX_WORKLOADS
    requires DistinctVolumes(Restore(input.pod).volumes)
    ensures DiskNames(DiskList(input)) == VmNames(VolumeList(input))
    ensures NoDuplicates(DiskNames(DiskList(input)))
  {
    NamesOfLists(input);
    var src := Restore(input.pod);
    var a := AttachedOf(src.volumes, src.rootfsVolume);
    AttachedDistinct(src.volumes, src.rootfsVolume);
    VolNamesDistinct(a);
    var fixed := if UserRootfsFails(input.pod) then [ROOT_DISK] else [ROOT_DISK, USER_ROOTFS];
    assert ROOT_DISK[0] == 'r' && USER_ROOTFS[0] == 'u';
    ConcatDistinct(fixed, VolNames(a));
  }

  /** Where an attached PVC's disk and volume are. */
  lemma DiskIndex(input: Input, v: Volume) returns (i: nat)
    requires WorkloadCount(input.pod) <= Capacity.MAX_WORKLOADS
    requires v in Restore(input.pod).volumes && Attached(v, input.pod.rootfsVolume)
    ensures i < |DiskList(input)| == |VolumeList(input)|
    ensures DiskList(input)[i] == Disk(VolName(v), DiskSerial(v.name))
    ensures VolumeList(input)[i] == VmVolume(VolName(v), ClaimDisk(v.pvc.value))
  {
    var src := Restore(input.pod);
    var a := AttachedOf(src.volumes, src.rootfsVolume);
    AttachedIn(src.volumes, src.rootfsVolume);
    var k :| 0 <= k < |a| && a[k] == v;
    i := |BaseDisks(input)| + k;
  }

  /** Every PVC except the root filesystem's becomes exactly one disk, with its
      serial, backed by its claim. */
  lemma OneDiskPerClaim(input: Input, v: Volume) returns (i: nat)
    requires WorkloadCount(input.pod) <= Capacity.MAX_WORKLOADS
    requires DistinctVolumes(Restore(input.pod).volumes)
    requires v in Restore(input.pod).volumes && Attached(v, input.pod.rootfsVolume)
    ensures i < |DiskList(input)| == |VolumeList(input)|
    ensures DiskList(input)[i] == Disk(VolName(v), DiskSerial(v.name))
    ensures VolumeList(input)[i] == VmVolume(VolName(v), ClaimDisk(v.pvc.value))
    ensures forall j :: 0 <= j < |DiskList(input)| && j != i ==> DiskList(input)[j].name != VolName(v)
  {
    i := DiskIndex(input, v);
    DisksMatchVolumes(input);
    var ds := DiskList(input);
    var names := DiskNames(ds);
    forall j | 0 <= j < |ds| && j != i ensures ds[j].name != VolName(v) {
      assert names[j] == ds[j].name && names[i] == ds[i].name;
    }
  }

  /** Translating an already restored Pod gives the same disks. */
  lemma RestoredTranslatesTheSame(input: Input)
    requires WorkloadCount(input.pod) <= Capacity.MAX_WORKLOADS
    ensures var again := input.(pod := Restore(input.pod));
            && WorkloadCount(again.pod) <= Capacity.MAX_WORKLOADS
            && DiskList(again) == DiskList(input) && VolumeList(again) == VolumeList(input)
  {
    RestoreTwice(input.pod);
  }

  // ---------------------------------------------------------------- serials on disks

  lemma {:induction false} GuestMountsAreOfUses(m: map<string, Volume>, us: seq<Use>)
    ensures forall g :: g in GuestMountsOf(m, us) ==>
              exists u :: u in us && GuestMountOf(m, u) == Some(g)
  {
    if us != [] {
      var init, u := us[..|us| - 1], us[|us| - 1];
      GuestMountsAreOfUses(m, init);
      assert us == init + [u];
      forall g | g in GuestMountsOf(m, us) ensures exists w :: w in us && GuestMountOf(m, w) == Some(g) {
        if g in GuestMountsOf(m, init) {
          var w :| w in init && GuestMountOf(m, w) == Some(g);
          assert w in us;
        } else {
          assert u in us && GuestMountOf(m, u) == Some(g);
        }
      }
    }
  }

  predicate OnDisk(g: GuestMount) { g.kind == VirtioBlk || g.kind == Block }

  lemma GuestMountSerial(p: Pod, container: string, g: GuestMount)
    requires g in GuestMountsFor(p, container) && OnDisk(g)
    ensures g.serial == DiskSerial(g.volume)
  {
    var src := Restore(p);
    var m := ByName(src.volumes, src.rootfsVolume);
    GuestMountsAreOfUses(m, AllUses(if container == "" then src.containers
                                    else Named(src.inits + src.containers, container)));
  }

  /** The disks: two without a volume's serial, and one per attached PVC. */
  lemma DiskOrigins(input: Input, d: Disk)
    requires d in DiskList(input)
    ensures d.serial == "" || d.serial == USER_ROOTFS_SERIAL ||
            exists v :: && v in Restore(input.pod).volumes && Attached(v, input.pod.rootfsVolume)
                        && d == Disk(VolName(v), DiskSerial(v.name))
  {
    var src := Restore(input.pod);
    var a := AttachedOf(src.volumes, src.rootfsVolume);
    AttachedIn(src.volumes, src.rootfsVolume);
    if d in DisksFor(a) {
      var i :| 0 <= i < |a| && DisksFor(a)[i] == d;
      assert a[i] in a;
    }
  }

  lemma AttachedHasDisk(input: Input, v: Volume)
    requires v in Restore(input.pod).volumes && Attached(v, input.pod.rootfsVolume)
    ensures Disk(VolName(v), DiskSerial(v.name)) in DiskList(input)
  {
    var src := Restore(input.pod);
    var a := AttachedOf(src.volumes, src.rootfsVolume);
    AttachedIn(src.volumes, src.rootfsVolume);
    var k :| 0 <= k < |a| && a[k] == v;
    assert DisksFor(a)[k] in DisksFor(a);
  }

  /** The serial is on a disk exactly when some attached PVC's name collides with
      the volume's. */
  lemma SerialOnDiskExactly(input: Input, container: string, g: GuestMount)
    requires g in GuestMountsFor(input.pod, container) && OnDisk(g)
    ensures (exists d :: d in DiskList(input) && d.serial == g.serial) <==>
            exists v :: && v in Restore(input.pod).volumes
                        && Attached(v, input.pod.rootfsVolume) && Collide(v.name, g.volume)
  {
    GuestMountSerial(input.pod, container, g);
    SerialShape(g.volume);
    if d :| d in DiskList(input) && d.serial == g.serial {
      DiskOrigins(input, d);
      var v :| && v in Restore(input.pod).volumes && Attached(v, input.pod.rootfsVolume)
               && d == Disk(VolName(v), DiskSerial(v.name));
      SerialsCollideExactly(v.name, g.volume);
    }
    if v :| v in Restore(input.pod).volumes && Attached(v, input.pod.rootfsVolume) && Collide(v.name, g.volume) {
      AttachedHasDisk(input, v);
      SerialsCollideExactly(v.name, g.volume);
    }
  }

  /** Every guest mount of a PVC, init containers included, finds its disk. */
  lemma ClaimMountFindsDisk(input: Input, container: string, g: GuestMount)
    requires g in GuestMountsFor(input.pod, container) && OnDisk(g)
    requires var src := Restore(input.pod);
             g.volume in ByName(src.volumes, src.rootfsVolume)
             && ByName(src.volumes, src.rootfsVolume)[g.volume].pvc.Some?
    ensures exists d :: d in DiskList(input) && d.serial == g.serial
  {
    var src := Restore(input.pod);
    ByNameNames(src.volumes, src.rootfsVolume);
    var v := ByName(src.volumes, src.rootfsVolume)[g.volume];
    assert v in src.volumes && Attached(v, src.rootfsVolume) && Collide(v.name, g.volume);
    SerialOnDiskExactly(input, container, g);
  }

  /** Disk `i` is the volume's own, and no other disk carries the serial. */
  ghost predicate OnlyDisk(input: Input, g: GuestMount, i: nat) {
    && i < |DiskList(input)| && DiskList(input)[i] == Disk("vol-" + g.volume, g.serial)
    && forall j :: 0 <= j < |DiskList(input)| && j != i ==> DiskList(input)[j].serial != g.serial
  }

  /** Another attached PVC's name collides with the volume's. */
  ghost predicate Rival(input: Input, v: Volume, name: string) {
    && v in Restore(input.pod).volumes && Attached(v, input.pod.rootfsVolume)
    && v.name != name && Collide(v.name, name)
  }

  lemma OthersDiffer(input: Input, v: Volume, j: nat)
    requires WorkloadCount(input.pod) <= Capacity.MAX_WORKLOADS
    requires j < |DiskList(input)| && DiskList(input)[j].serial == DiskSerial(v.name)
    requires DiskList(input)[j].name != VolName(v)
    ensures exists w :: Rival(input, w, v.name)
  {
    var d := DiskList(input)[j];
    assert d in DiskList(input);
    DiskOrigins(input, d);
    SerialShape(v.name);
    var w :| && w in Restore(input.pod).volumes && Attached(w, input.pod.rootfsVolume)
             && d == Disk(VolName(w), DiskSerial(w.name));
    SerialsCollideExactly(w.name, v.name);
    assert Rival(input, w, v.name);
  }

  /** A PVC's guest mount leads to its own disk and to no other, exactly when no
      other attached PVC's name collides with the volume's. */
  lemma MountFindsOnlyItsDiskExactly(input: Input, container: string, g: GuestMount, v: Volume)
    requires WorkloadCount(input.pod) <= Capacity.MAX_WORKLOADS && DistinctVolumes(Restore(input.pod).volumes)
    requires g in GuestMountsFor(input.pod, container) && OnDisk(g) && g.volume == v.name
    requires v in Restore(input.pod).volumes && Attached(v, input.pod.rootfsVolume)
    ensures (exists i :: OnlyDisk(input, g, i)) <==> !exists w :: Rival(input, w, g.volume)
  {
    GuestMountSerial(input.pod, container, g);
    var i := OneDiskPerClaim(input, v);
    if w :| Rival(input, w, g.volume) {
      var j := DiskIndex(input, w);
      SerialsCollideExactly(w.name, g.volume);
      assert VolName(w)[4..] == w.name && VolName(v)[4..] == v.name;
      forall k ensures !OnlyDisk(input, g, k) {
        assert DiskList(input)[i].serial == g.serial && DiskList(input)[j].serial == g.serial && i != j;
      }
    } else {
      forall j | 0 <= j < |DiskList(input)| && j != i ensures DiskList(input)[j].serial != g.serial {
        if DiskList(input)[j].serial == g.serial { OthersDiffer(input, v, j); }
      }
      assert OnlyDisk(input, g, i);
    }
  }

  // ---------------------------------------------------------------- interfaces and networks

  predicate IsSriov(r: Request) { HasPrefix(r.resource, "intel.com/") }

  function SumOf(rs: seq<Request>, wanted: Request -> bool): int {
    if rs == [] then 0
    else SumOf(rs[..|rs| - 1], wanted) + if wanted(rs[|rs| - 1]) then rs[|rs| - 1].amount else 0
  }

  function SumAll(cs: seq<Container>, wanted: Request -> bool): int {
    if cs == [] then 0 else SumAll(cs[..|cs| - 1], wanted) + SumOf(cs[|cs| - 1].requests, wanted)
  }

  function NadOf(input: Input): string {
    if input.podNad != "" then input.podNad else input.defaultNad
  }

  /** How many SR-IOV interfaces are added. */
  function SriovCount(input: Input): nat {
    var count := SumAll(input.pod.containers, IsSriov);
    if count <= 0 || input.tee != Off || NadOf(input) == "" then 0 else count
  }

  function NetworkNames(input: Input): seq<string> {
    [DEFAULT_NET] + seq(SriovCount(input), i requires 0 <= i < SriovCount(input) => SriovName(i))
  }

  /** A network of the VMI: the Pod's, or the attachment definition it names. */
  datatype Network = PodNetwork(name: string) | Multus(name: string, nad: string)

  function NetworkList(input: Input): seq<Network> {
    [PodNetwork(DEFAULT_NET)]
    + seq(SriovCount(input), i requires 0 <= i < SriovCount(input) => Multus(SriovName(i), NadOf(input)))
  }

  /** Interfaces and networks correspond by name, position by position, and no name
      occurs twice. */
  lemma NetworksDistinct(input: Input)
    ensures |NetworkList(input)| == |NetworkNames(input)|
    ensures forall i :: 0 <= i < |NetworkList(input)| ==> NetworkList(input)[i].name == NetworkNames(input)[i]
    ensures NoDuplicates(NetworkNames(input))
  {
    var ns := NetworkNames(input);
    forall i, j | 0 <= i < j < |ns| ensures ns[i] != ns[j] {
      assert ns[j] == SriovName(j - 1) && ns[j][0] == 's' && DEFAULT_NET[0] == 'd';
      if i > 0 {
        assert ns[i] == SriovName(i - 1);
        assert ns[i][6..] == Itoa(i - 1) && ns[j][6..] == Itoa(j - 1);
        ItoaInjective(i - 1, j - 1);
      }
    }
  }

  // ---------------------------------------------------------------- guest size

  predicate IsCpu(r: Request) { r.resource == "cpu" }
  predicate IsMemory(r: Request) { r.resource == "memory" }
  predicate IsHuge(r: Request) { HasPrefix(r.resource, "hugepages-") }

  /** `n` whole cores cover `millis`. */
  predicate Covers(n: int, millis: int) { millis <= 1000 * n }

  /** The least whole number of cores, at least one, that covers the request. */
  ghost predicate LeastCores(cores: int, millis: int) {
    1 <= cores && Covers(cores, millis) && forall n :: 1 <= n && Covers(n, millis) ==> cores <= n
  }

  function GuestMemory(total: int, tee: Tee): int {
    (if total < MIN_GUEST_MEMORY then MIN_GUEST_MEMORY else total) + if tee == Snp || tee == Tdx then TEE_SLOP else 0
  }

  // ---------------------------------------------------------------- hugepages

  function Suffixes(rs: seq<Request>): seq<string> {
    if rs == [] then []
    else Suffixes(rs[..|rs| - 1]) + if IsHuge(rs[|rs| - 1]) then [rs[|rs| - 1].resource[10..]] else []
  }

  function AllSuffixes(cs: seq<Container>): seq<string> {
    if cs == [] then [] else AllSuffixes(cs[..|cs| - 1]) + Suffixes(cs[|cs| - 1].requests)
  }

  datatype Huge = NoHuge | ManySizes | Backed(page: string)

  /** applyHugepages' decision: the last size seen, unless there are several or
      the Pod requests less than the guest's memory. */
  function Decide(cs: seq<Container>, guest: int): Huge {
    var sizes := AllSuffixes(cs);
    var page := if sizes == [] then "" else sizes[|sizes| - 1];
    if page == "" then NoHuge
    else if exists s :: s in sizes && s != page then ManySizes
    else if SumAll(cs, IsHuge) < guest then NoHuge
    else Backed(page)
  }

  /** Some container asks for pages of this size. */
  ghost predicate Asks(cs: seq<Container>, size: string) {
    exists c, r :: c in cs && r in c.requests && r.resource == "hugepages-" + size
  }

  lemma {:induction false} SuffixesOfRequests(rs: seq<Request>)
    ensures forall s :: s in Suffixes(rs) <==> exists r :: r in rs && r.resource == "hugepages-" + s
  {
    if rs != [] {
      var init, last := rs[..|rs| - 1], rs[|rs| - 1];
      SuffixesOfRequests(init);
      assert rs == init + [last];
      if IsHuge(last) { assert last.resource == "hugepages-" + last.resource[10..]; }
      forall s ensures s in Suffixes(rs) <==> exists r :: r in rs && r.resource == "hugepages-" + s {
        assert ("hugepages-" + s)[10..] == s && HasPrefix("hugepages-" + s, "hugepages-");
        if r :| r in rs && r.resource == "hugepages-" + s { assert r in init || r == last; }
      }
    }
  }

  lemma {:induction false} SuffixesAreAsked(cs: seq<Container>)
    ensures forall s :: s in AllSuffixes(cs) <==> Asks(cs, s)
  {
    if cs != [] {
      var init, last := cs[..|cs| - 1], cs[|cs| - 1];
      SuffixesAreAsked(init);
      SuffixesOfRequests(last.requests);
      assert cs == init + [last];
      forall s ensures s in AllSuffixes(cs) <==> Asks(cs, s) {
        if Asks(cs, s) {
          var c, r :| c in cs && r in c.requests && r.resource == "hugepages-" + s;
          assert c in init || c == last;
        }
        if s in AllSuffixes(init) {
          var c, r :| c in init && r in c.requests && r.resource == "hugepages-" + s;
          assert c in cs;
        } else if s in Suffixes(last.requests) {
          assert last in cs;
        }
      }
    }
  }

  /** A guest is backed with a page size exactly when the Pod's containers ask for
      that size and no other, and for at least the guest's memory. */
  lemma {:induction false} BackedExactly(cs: seq<Container>, guest: int, page: string)
    ensures Decide(cs, guest) == Backed(page) <==>
            && page != "" && Asks(cs, page) && (forall s :: Asks(cs, s) ==> s == page)
            && SumAll(cs, IsHuge) >= guest
  {
    var sizes := AllSuffixes(cs);
    SuffixesAreAsked(cs);
    if sizes != [] {
      var last := sizes[|sizes| - 1];
      assert last in sizes;
      if last == page && (forall s :: s in sizes ==> s == page) {
        assert forall s :: s in sizes ==> s == last;
      }
    }
  }
}
