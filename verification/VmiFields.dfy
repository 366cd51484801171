/** The translated VMI, on the Pod's own fields. */
module VmiFields {
  import opened Options
  import opened Words
  import opened Strings
  import opened Sequences
  import opened Pods
  import opened Volumes
  import opened Mounts
  import opened Translate
  import Capacity
  import VmiBuilder

  // ---------------------------------------------------------------- requests

  ghost function Amounts(rs: seq<Request>): int {
    if rs == [] then 0 else rs[0].amount + Amounts(rs[1..])
  }

  lemma {:induction false} AmountsConcat(xs: seq<Request>, ys: seq<Request>)
    ensures Amounts(xs + ys) == Amounts(xs) + Amounts(ys)
  {
    if xs == [] {
      assert xs + ys == ys;
    } else {
      assert (xs + ys)[1..] == xs[1..] + ys;
      AmountsConcat(xs[1..], ys);
    }
  }

  lemma {:induction false} SumOfIs(rs: seq<Request>, wanted: Request -> bool)
    ensures SumOf(rs, wanted) == Amounts(Filter(rs, wanted))
  {
    if rs != [] {
      var init, r := rs[..|rs| - 1], rs[|rs| - 1];
      SumOfIs(init, wanted);
      FilterSnoc(rs, wanted);
      AmountsConcat(Filter(init, wanted), if wanted(r) then [r] else []);
      assert [r][1..] == [];
    }
  }

  /** The sums are the amounts of the wanted requests of all containers. */
  lemma {:induction false} SumAllIs(cs: seq<Container>, wanted: Request -> bool)
    ensures SumAll(cs, wanted) == Amounts(Filter(Flat(cs, (c: Container) => c.requests), wanted))
  {
    if cs != [] {
      var init, c := cs[..|cs| - 1], cs[|cs| - 1];
      SumAllIs(init, wanted);
      SumOfIs(c.requests, wanted);
      FlatSnoc(cs, (c: Container) => c.requests);
      FilterConcat(Flat(init, (c: Container) => c.requests), c.requests, wanted);
      AmountsConcat(Filter(Flat(init, (c: Container) => c.requests), wanted), Filter(c.requests, wanted));
    }
  }

  /** The amounts requested under names with a property. */
  ghost function Requested(cs: seq<Container>, named: string -> bool): int {
    Amounts(Filter(Flat(cs, (c: Container) => c.requests), (r: Request) => named(r.resource)))
  }

  lemma {:induction false} SumsByName(cs: seq<Container>)
    ensures SumAll(cs, IsCpu) == Requested(cs, (s: string) => s == "cpu")
    ensures SumAll(cs, IsMemory) == Requested(cs, (s: string) => s == "memory")
    ensures SumAll(cs, IsSriov) == Requested(cs, (s: string) => "intel.com/" <= s)
    ensures SumAll(cs, IsHuge) == Requested(cs, (s: string) => "hugepages-" <= s)
  {
    SumByName(cs, IsCpu, (s: string) => s == "cpu");
    SumByName(cs, IsMemory, (s: string) => s == "memory");
    SumByName(cs, IsSriov, (s: string) => "intel.com/" <= s);
    SumByName(cs, IsHuge, (s: string) => "hugepages-" <= s);
  }

  lemma {:induction false} SumByName(cs: seq<Container>, wanted: Request -> bool, named: string -> bool)
    requires forall r :: wanted(r) == named(r.resource)
    ensures SumAll(cs, wanted) == Requested(cs, named)
  {
    SumAllIs(cs, wanted);
    FilterSame(Flat(cs, (c: Container) => c.requests), wanted, (r: Request) => named(r.resource));
  }

  // ---------------------------------------------------------------- the root filesystem

  /** `c` is the claim of the first volume of this name that is a claim. */
  ghost predicate FirstClaim(vs: seq<Volume>, name: string, c: Claim) {
    exists i :: && 0 <= i < |vs| && vs[i].name == name && vs[i].pvc == Some(c)
                && forall j :: 0 <= j < i ==> vs[j].name != name || vs[j].pvc.None?
  }

  lemma {:induction false} RootfsClaimIs(vs: seq<Volume>, name: string)
    ensures RootfsClaim(vs, name).None? <==> forall v :: v in vs && v.name == name ==> v.pvc.None?
    ensures RootfsClaim(vs, name).Some? ==> FirstClaim(vs, name, RootfsClaim(vs, name).value)
  {
    if vs != [] {
      RootfsClaimIs(vs[1..], name);
      assert vs == [vs[0]] + vs[1..];
      if vs[0].name == name && vs[0].pvc.Some? {
        assert vs[0] in vs;
      } else if RootfsClaim(vs, name).Some? {
        var c := RootfsClaim(vs, name).value;
        var i :| && 0 <= i < |vs[1..]| && vs[1..][i].name == name && vs[1..][i].pvc == Some(c)
                 && forall j :: 0 <= j < i ==> vs[1..][j].name != name || vs[1..][j].pvc.None?;
        forall j | 0 <= j < i + 1 ensures vs[j].name != name || vs[j].pvc.None? {
          if j > 0 { assert vs[j] == vs[1..][j - 1]; }
        }
        assert vs[i + 1] == vs[1..][i];
      }
    }
  }

  /** The annotation names a volume, and no volume of that name is a claim. */
  ghost predicate NoSuchClaim(p: Pod) {
    p.rootfsVolume != "" && forall v :: v in Restore(p).volumes && v.name == p.rootfsVolume ==> v.pvc.None?
  }

  /** Where the user's root filesystem is: on the claim of the annotated volume, or,
      without an annotation, on a new disk with room for the image. */
  lemma UserRootfsIs(input: Input)
    requires WorkloadCount(input.pod) <= Capacity.MAX_WORKLOADS
    ensures UserRootfsFails(input.pod) <==> NoSuchClaim(input.pod)
    ensures var p := input.pod;
            p.rootfsVolume != "" && !NoSuchClaim(p) ==>
              UserRootfsSource(input).ClaimDisk? &&
              FirstClaim(Restore(p).volumes, p.rootfsVolume, UserRootfsSource(input).claim)
    ensures var p := input.pod;
            var n := |p.containers| + |p.inits|;
            var floor, sized := 0x1000_0000 * (if n < 1 then 1 else n), input.rootfsBytes + 0x800_0000;
            p.rootfsVolume == "" && input.rootfsBytes <= 0x7fff_ffff_f7ff_ffff ==>
              UserRootfsSource(input) == EmptyDisk(if sized < floor then floor else sized)
  {
    RootfsClaimIs(Restore(input.pod).volumes, input.pod.rootfsVolume);
    if input.rootfsBytes <= 0x7fff_ffff_f7ff_ffff { Capacity.CapacityIs(input.rootfsBytes, WorkloadCount(input.pod)); }
  }

  // ---------------------------------------------------------------- disks and volumes

  lemma {:induction false} AttachedIsFilter(vs: seq<Volume>, rootfs: string)
    ensures AttachedOf(vs, rootfs) == Filter(vs, (v: Volume) => v.pvc.Some? && (rootfs == "" || v.name != rootfs))
  {
    if vs != [] {
      AttachedIsFilter(vs[..|vs| - 1], rootfs);
      FilterSnoc(vs, (v: Volume) => v.pvc.Some? && (rootfs == "" || v.name != rootfs));
    }
  }

  lemma {:induction false} DisksForFlat(vs: seq<Volume>)
    ensures DisksFor(vs) == Flat(vs, (v: Volume) => [Disk("vol-" + v.name, DiskSerial(v.name))])
  {
    if vs != [] {
      DisksForFlat(vs[1..]);
      assert DisksFor(vs) == [Disk("vol-" + vs[0].name, DiskSerial(vs[0].name))] + DisksFor(vs[1..]);
    }
  }

  /** A claim as the source of a volume; nothing for other volumes. */
  ghost function ClaimVolume(v: Volume): seq<VmVolume> {
    if v.pvc.Some? then [VmVolume("vol-" + v.name, ClaimDisk(v.pvc.value))] else []
  }

  lemma {:induction false} ClaimsForFlat(vs: seq<Volume>)
    requires forall v :: v in vs ==> v.pvc.Some?
    ensures ClaimsFor(vs) == Flat(vs, (v: Volume) => ClaimVolume(v))
  {
    if vs != [] {
      assert vs[0] in vs && forall v :: v in vs[1..] ==> v in vs;
      ClaimsForFlat(vs[1..]);
      assert ClaimsFor(vs) == ClaimVolume(vs[0]) + ClaimsFor(vs[1..]);
    }
  }

  /** The restored claims other than the root filesystem's, in order. */
  ghost function OtherClaims(p: Pod): seq<Volume> {
    Filter(Restore(p).volumes, (v: Volume) => v.pvc.Some? && (p.rootfsVolume == "" || v.name != p.rootfsVolume))
  }

  /** The disks: the boot disk; the user's root filesystem, unless its claim is
      missing; one for each other claim, with its serial. */
  lemma DisksAre(input: Input)
    ensures DiskList(input) ==
            [Disk("rootdisk", "")]
            + (if NoSuchClaim(input.pod) then [] else [Disk("user-rootfs", "userrootfs")])
            + Flat(OtherClaims(input.pod), (v: Volume) => [Disk("vol-" + v.name, DiskSerial(v.name))])
  {
    var src := Restore(input.pod);
    RootfsClaimIs(src.volumes, input.pod.rootfsVolume);
    AttachedIsFilter(src.volumes, src.rootfsVolume);
    DisksForFlat(OtherClaims(input.pod));
  }

  /** The volumes behind them. */
  lemma VolumesAre(input: Input)
    requires WorkloadCount(input.pod) <= Capacity.MAX_WORKLOADS
    ensures VolumeList(input) ==
            [VmVolume("rootdisk", ContainerDisk)]
            + (if NoSuchClaim(input.pod) then [] else [VmVolume("user-rootfs", UserRootfsSource(input))])
            + Flat(OtherClaims(input.pod), (v: Volume) => ClaimVolume(v))
  {
    var src := Restore(input.pod);
    RootfsClaimIs(src.volumes, input.pod.rootfsVolume);
    AttachedIsFilter(src.volumes, src.rootfsVolume);
    AttachedIn(src.volumes, src.rootfsVolume);
    ClaimsForFlat(OtherClaims(input.pod));
  }

  // ---------------------------------------------------------------- networks and memory

  /** The networks: the Pod's, and as many as the containers request devices under
      `intel.com/`, numbered from 0, on the Pod's attachment definition or else the
      default one; none of those without a definition or with a TEE. */
  lemma NetworksAre(input: Input)
    ensures var wanted := Requested(input.pod.containers, (s: string) => "intel.com/" <= s);
            var nad := if input.podNad != "" then input.podNad else input.defaultNad;
            var count := if wanted > 0 && input.tee == Off && nad != "" then wanted else 0;
            && |NetworkList(input)| == 1 + count && NetworkList(input)[0] == PodNetwork("default")
            && forall i :: 0 <= i < count ==> NetworkList(input)[1 + i] == Multus("sriov-" + Itoa(i), nad)
  {
    SumsByName(input.pod.containers);
  }

  /** Asking for such devices is an error with a TEE or without a definition. */
  lemma SriovFailsIs(input: Input)
    ensures VmiBuilder.SriovFails(input) <==>
            && Requested(input.pod.containers, (s: string) => "intel.com/" <= s) != 0
            && (input.tee == Off ==> input.podNad == "" && input.defaultNad == "")
  {
    SumsByName(input.pod.containers);
  }

  /** The guest's memory: 512 MiB or what is needed, and with a memory-encrypting TEE
      256 MiB on top. */
  lemma MemoryIs(total: int, tee: Tee)
    ensures var m := GuestMemory(total, tee);
            && (tee == Snp || tee == Tdx ==> m == (if total > 0x2000_0000 then total else 0x2000_0000) + 0x1000_0000)
            && (tee == Off || tee == OtherTee ==> m == if total > 0x2000_0000 then total else 0x2000_0000)
  {
  }

  /** One error for each of the four things that can go wrong. */
  lemma FailuresAre(input: Input, memory: int)
    ensures VmiBuilder.Failures(input, memory) ==
            (if NoSuchClaim(input.pod) then 1 else 0)
            + (if Decide(input.pod.containers, memory) == ManySizes then 1 else 0)
            + (if && Requested(input.pod.containers, (s: string) => "intel.com/" <= s) != 0
                  && (input.tee == Off ==> input.podNad == "" && input.defaultNad == "") then 1 else 0)
            + (if input.resourceClaims == 0 then 0 else 1)
  {
    RootfsClaimIs(Restore(input.pod).volumes, input.pod.rootfsVolume);
    SriovFailsIs(input);
  }

  /** Hugepages are in error exactly when containers ask for two sizes and the last
      request is for a named one. */
  lemma {:induction false} ManySizesExactly(cs: seq<Container>, guest: int)
    ensures Decide(cs, guest) == ManySizes <==>
            && (exists s, t :: Asks(cs, s) && Asks(cs, t) && s != t)
            && AllSuffixes(cs) != [] && AllSuffixes(cs)[|AllSuffixes(cs)| - 1] != ""
  {
    SuffixesAreAsked(cs);
    var sizes := AllSuffixes(cs);
    if sizes != [] {
      var last := sizes[|sizes| - 1];
      assert last in sizes;
      if s, t :| Asks(cs, s) && Asks(cs, t) && s != t { assert s != last || t != last; }
    }
  }
}
