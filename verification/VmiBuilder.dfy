/** The translator's passes, appending in place to one VMI object, and the
    loops that build the two mount tables. */
module VmiBuilder {
  import opened Options
  import opened Words
  import opened Pods
  import opened Volumes
  import opened Mounts
  import opened MountTables
  import opened Sequences
  import opened Translate
  import Capacity
  import Admission

  // ---------------------------------------------------------------- the shim's table

  /** The loop of GuestMountsFor over the volumes. */
  method IndexVolumes(vs: seq<Volume>, skip: string) returns (m: map<string, Volume>)
    ensures m == ByName(vs, skip)
  {
    m := map[];
    for i := 0 to |vs|
      invariant m == ByName(vs[..i], skip)
    {
      assert vs[..i + 1][..i] == vs[..i];
      if !(skip != "" && vs[i].name == skip) { m := m[vs[i].name := vs[i]]; }
    }
    assert vs[..|vs|] == vs;
  }

  lemma {:induction false} GuestMountsConcat(m: map<string, Volume>, xs: seq<Use>, ys: seq<Use>)
    ensures GuestMountsOf(m, xs + ys) == GuestMountsOf(m, xs) + GuestMountsOf(m, ys)
  {
    if ys == [] {
      assert xs + ys == xs;
    } else {
      assert (xs + ys)[..|xs + ys| - 1] == xs + ys[..|ys| - 1];
      GuestMountsConcat(m, xs, ys[..|ys| - 1]);
    }
  }

  /** One of the two inner loops of the walk over a container. */
  method WalkRefs(m: map<string, Volume>, rs: seq<Ref>, block: bool) returns (out: seq<GuestMount>)
    ensures out == GuestMountsOf(m, ToUses(rs, block))
  {
    out := [];
    ghost var us := ToUses(rs, block);
    for i := 0 to |rs|
      invariant out == GuestMountsOf(m, us[..i])
    {
      assert us[..i + 1][..i] == us[..i] && us[..i + 1][i] == ToUse(rs[i], block);
      var g := GuestMountOf(m, ToUse(rs[i], block));
      if g.Some? { out := out + [g.value]; }
    }
    assert us[..|rs|] == us;
  }

  /** The containers a name selects; the empty name selects all. */
  function Chosen(cs: seq<Container>, name: string): seq<Container> {
    if name == "" then cs else Named(cs, name)
  }

  lemma ChosenStep(cs: seq<Container>, i: nat, name: string)
    requires i < |cs|
    ensures Chosen(cs[..i + 1], name) ==
            Chosen(cs[..i], name) + if name == "" || cs[i].name == name then [cs[i]] else []
  {
    assert cs[..i + 1] == cs[..i] + [cs[i]] && cs[..i + 1][..i] == cs[..i];
  }

  lemma {:induction false} AllUsesSnoc(cs: seq<Container>, c: Container)
    ensures AllUses(cs + [c]) == AllUses(cs) + ContainerUses(c)
  {
    assert (cs + [c])[..|cs|] == cs;
  }

  /** The walk over a list of containers. */
  method WalkContainers(m: map<string, Volume>, cs: seq<Container>, name: string) returns (out: seq<GuestMount>)
    ensures out == GuestMountsOf(m, AllUses(Chosen(cs, name)))
  {
    out := [];
    for i := 0 to |cs|
      invariant out == GuestMountsOf(m, AllUses(Chosen(cs[..i], name)))
    {
      ghost var before := Chosen(cs[..i], name);
      ChosenStep(cs, i, name);
      if name == "" || cs[i].name == name {
        AllUsesSnoc(before, cs[i]);
        var ms := WalkRefs(m, cs[i].mounts, false);
        var ds := WalkRefs(m, cs[i].devices, true);
        GuestMountsConcat(m, ToUses(cs[i].mounts, false), ToUses(cs[i].devices, true));
        GuestMountsConcat(m, AllUses(before), ContainerUses(cs[i]));
        out := out + (ms + ds);
      } else {
        assert Chosen(cs[..i + 1], name) == before;
      }
    }
    assert cs[..|cs|] == cs;
  }

  /** GuestMountsFor. */
  method ListGuestMounts(p: Admission.PodObject, container: string) returns (out: seq<GuestMount>)
    ensures out == GuestMountsFor(p.Value(), container)
    ensures var pod := Restore(p.Value());
            DistinctVolumes(pod.volumes) ==>
              out == Flat(if container == "" then pod.containers
                          else Filter(pod.inits + pod.containers, (c: Container) => c.name == container),
                          (c: Container) => ShimRows(pod, c))
  {
    if DistinctVolumes(Restore(p.Value()).volumes) { ShimTableIs(p.Value(), container); }
    var src := p.RestoreVolumes();
    var m := IndexVolumes(src.volumes, src.rootfsVolume);
    if container != "" {
      out := WalkContainers(m, src.inits + src.containers, container);
    } else {
      out := WalkContainers(m, src.containers, "");
    }
  }

  // ---------------------------------------------------------------- the translator's table

  function Get(uses: map<string, seq<Use>>, name: string): seq<Use> {
    if name in uses then uses[name] else []
  }

  function UsesNamed(us: seq<Use>, name: string): seq<Use> {
    if us == [] then []
    else UsesNamed(us[..|us| - 1], name) + if us[|us| - 1].volume == name then [us[|us| - 1]] else []
  }

  /** `uses` groups `us` by volume. */
  ghost predicate Groups(uses: map<string, seq<Use>>, us: seq<Use>) {
    forall n :: Get(uses, n) == UsesNamed(us, n)
  }

  lemma GroupsSnoc(uses: map<string, seq<Use>>, us: seq<Use>, u: Use)
    requires Groups(uses, us)
    ensures Groups(uses[u.volume := Get(uses, u.volume) + [u]], us + [u])
  {
    assert (us + [u])[..|us|] == us;
    forall n ensures Get(uses[u.volume := Get(uses, u.volume) + [u]], n) == UsesNamed(us + [u], n) {
      assert Get(uses, n) == UsesNamed(us, n);
    }
  }

  lemma {:induction false} RowsFromGroup(v: Volume, us: seq<Use>)
    ensures RowsOf(v, UsesNamed(us, v.name)) == RowsOf(v, us)
  {
    if us != [] {
      var init, u := us[..|us| - 1], us[|us| - 1];
      RowsFromGroup(v, init);
      if u.volume == v.name {
        var g := UsesNamed(us, v.name);
        assert g[..|g| - 1] == UsesNamed(init, v.name);
      } else {
        assert UsesNamed(us, v.name) == UsesNamed(init, v.name);
      }
    }
  }

  method AddUses(uses: map<string, seq<Use>>, rs: seq<Ref>, block: bool, ghost us: seq<Use>)
    returns (out: map<string, seq<Use>>)
    requires Groups(uses, us)
    ensures Groups(out, us + ToUses(rs, block))
  {
    out := uses;
    ghost var more := ToUses(rs, block);
    assert us + more[..0] == us;
    for i := 0 to |rs|
      invariant Groups(out, us + more[..i])
    {
      var u := ToUse(rs[i], block);
      assert us + more[..i + 1] == us + more[..i] + [u];
      GroupsSnoc(out, us + more[..i], u);
      out := out[u.volume := Get(out, u.volume) + [u]];
    }
    assert more[..|rs|] == more;
  }

  /** The first loop of applyVolumes. */
  method CollectUses(cs: seq<Container>) returns (uses: map<string, seq<Use>>)
    ensures Groups(uses, AllUses(cs))
  {
    uses := map[];
    for i := 0 to |cs|
      invariant Groups(uses, AllUses(cs[..i]))
    {
      assert cs[..i + 1][..i] == cs[..i];
      ghost var us := AllUses(cs[..i]);
      uses := AddUses(uses, cs[i].mounts, false, us);
      uses := AddUses(uses, cs[i].devices, true, us + ToUses(cs[i].mounts, false));
      assert us + ToUses(cs[i].mounts, false) + ToUses(cs[i].devices, true) == us + ContainerUses(cs[i]);
    }
    assert cs[..|cs|] == cs;
  }

  /** The inner loops of applyVolumes over the uses of one volume. */
  method VolumeRows(v: Volume, us: seq<Use>) returns (rows: seq<TableRow>)
    requires forall u :: u in us ==> u.volume == v.name
    ensures rows == RowsOf(v, us)
  {
    rows := [];
    for i := 0 to |us|
      invariant rows == RowsOf(v, us[..i])
    {
      assert us[..i + 1][..i] == us[..i] && us[i] in us;
      var r := RowOf(v, us[i]);
      if r.Some? { rows := rows + [r.value]; }
    }
    assert us[..|us|] == us;
  }

  lemma {:induction false} UsesNamedHaveName(us: seq<Use>, n: string)
    ensures forall u :: u in UsesNamed(us, n) ==> u.volume == n
  {
    if us != [] { UsesNamedHaveName(us[..|us| - 1], n); }
  }

  // ---------------------------------------------------------------- requests

  method SumRequests(cs: seq<Container>, wanted: Request -> bool) returns (total: int)
    ensures total == SumAll(cs, wanted)
  {
    total := 0;
    for i := 0 to |cs|
      invariant total == SumAll(cs[..i], wanted)
    {
      assert cs[..i + 1][..i] == cs[..i];
      var rs := cs[i].requests;
      var part := 0;
      for k := 0 to |rs|
        invariant part == SumOf(rs[..k], wanted)
      {
        assert rs[..k + 1][..k] == rs[..k];
        if wanted(rs[k]) { part := part + rs[k].amount; }
      }
      assert rs[..|rs|] == rs;
      total := total + part;
    }
    assert cs[..|cs|] == cs;
  }

  /** The whole number of cores for a request. */
  function Ceiling(millis: int): int { -((-millis) / 1000) }

  lemma CeilingCovers(millis: int)
    ensures 1000 * (Ceiling(millis) - 1) < millis <= 1000 * Ceiling(millis)
  {
  }

  /** What clamping the converted number to one or more gives. */
  lemma CoresAreLeastExactly(millis: int, whole: int, convert: int -> Uint32)
    requires 1000 * (whole - 1) < millis <= 1000 * whole
    ensures var c := if 0 <= whole < TWO32 then whole else convert(whole);
            LeastCores(if c < 1 then 1 else c, millis) <==>
            millis <= 1000 * (TWO32 - 1) && (millis > -1000 || convert(Ceiling(millis)) <= 1)
  {
    CeilingCovers(millis);
    assert whole == Ceiling(millis);
    assert Covers(1, millis) <==> millis <= 1000;
  }

  /** The cores are the least that cover all requests and the overhead, exactly
      when these fit; the memory covers them and the floor. */
  ghost predicate Sized(cores: int, memory: int, p: Pod, overheadCpu: int, overheadMemory: int, tee: Tee,
                        convert: int -> Uint32)
  {
    var millis := SumAll(p.containers + p.inits, IsCpu) + overheadCpu;
    && (LeastCores(cores, millis) <==>
        millis <= 1000 * (TWO32 - 1) && (millis > -1000 || convert(Ceiling(millis)) <= 1))
    && memory == GuestMemory(SumAll(p.containers + p.inits, IsMemory) + overheadMemory, tee)
  }

  /** guestCompute: the least whole number of cores, at least one, that covers
      every request plus overhead, exactly when that number fits 32 bits;
      memory at least the floor, with the TEE slop on top.  `convert` is the
      machine's conversion of numbers outside the 32-bit range.  The division
      of floats is read as a division of reals. */
  method GuestCompute(p: Pod, overheadCpu: int, overheadMemory: int, tee: Tee, convert: int -> Uint32)
    returns (cores: int, memory: int)
    ensures Sized(cores, memory, p, overheadCpu, overheadMemory, tee, convert)
    ensures 1 <= cores < TWO32 && memory >= MIN_GUEST_MEMORY
    ensures memory >= SumAll(p.containers + p.inits, IsMemory) + overheadMemory
  {
    var cpuMillis := SumRequests(p.containers + p.inits, IsCpu);
    var memBytes := SumRequests(p.containers + p.inits, IsMemory);
    cpuMillis, memBytes := cpuMillis + overheadCpu, memBytes + overheadMemory;
    var quotient := cpuMillis as real / 1000.0;
    var up := -quotient;
    var whole := -up.Floor;
    assert whole as real - 1.0 < quotient <= whole as real;
    assert (1000 * (whole - 1)) as real < cpuMillis as real <= (1000 * whole) as real;
    CoresAreLeastExactly(cpuMillis, whole, convert);
    cores := if 0 <= whole < TWO32 then whole else convert(whole);
    if cores < 1 { cores := 1; }
    if memBytes < MIN_GUEST_MEMORY { memBytes := MIN_GUEST_MEMORY; }
    if tee == Snp || tee == Tdx { memBytes := memBytes + TEE_SLOP; }
    memory := memBytes;
  }

  // ---------------------------------------------------------------- the VMI

  /** Virtual functions are wanted but not allowed, or without a network. */
  predicate SriovFails(input: Input) {
    SumAll(input.pod.containers, IsSriov) != 0 && (input.tee != Off || NadOf(input) == "")
  }

  /** What backing a guest with hugepages adds to its requests and limits. */
  function Backing(d: Huge, guestMemory: int): map<string, int> {
    if d.Backed? then map["hugepages-" + d.page := guestMemory] else map[]
  }

  lemma BackingAlone(d: Huge, guestMemory: int)
    ensures map[] + Backing(d, guestMemory) == Backing(d, guestMemory)
  {
  }

  class Vmi {
    var disks: seq<Disk>
    var volumes: seq<VmVolume>
    var interfaces: seq<string>
    var networks: seq<Network>
    var cores: int
    var guestMemory: int
    var hugepages: string
    var requests: map<string, int>
    var limits: map<string, int>

    constructor (cores: int, guestMemory: int)
      ensures disks == [] && volumes == [] && interfaces == [] && networks == []
      ensures this.cores == cores && this.guestMemory == guestMemory
      ensures hugepages == "" && requests == map[] && limits == map[]
    {
      disks, volumes, interfaces, networks := [], [], [], [];
      this.cores, this.guestMemory, hugepages, requests, limits := cores, guestMemory, "", map[], map[];
    }

    method ApplyNetwork()
      modifies this`interfaces, this`networks
      ensures interfaces == old(interfaces) + [DEFAULT_NET] && networks == old(networks) + [PodNetwork(DEFAULT_NET)]
    {
      interfaces := interfaces + [DEFAULT_NET];
      networks := networks + [PodNetwork(DEFAULT_NET)];
    }

    method ApplyRootfs()
      modifies this`disks, this`volumes
      ensures disks == old(disks) + [Disk(ROOT_DISK, "")]
      ensures volumes == old(volumes) + [VmVolume(ROOT_DISK, ContainerDisk)]
    {
      disks := disks + [Disk(ROOT_DISK, "")];
      volumes := volumes + [VmVolume(ROOT_DISK, ContainerDisk)];
    }

    /** applyUserRootfs; on error it adds neither disk nor volume. */
    method ApplyUserRootfs(input: Input) returns (ok: bool)
      requires WorkloadCount(input.pod) <= Capacity.MAX_WORKLOADS
      modifies this`disks, this`volumes
      ensures ok == !UserRootfsFails(input.pod)
      ensures disks == old(disks) + if ok then [Disk(USER_ROOTFS, USER_ROOTFS_SERIAL)] else []
      ensures volumes == old(volumes) + if ok then [VmVolume(USER_ROOTFS, UserRootfsSource(input))] else []
    {
      var want, pvc := input.pod.rootfsVolume, UserRootfsClaim(input.pod);
      if want != "" && pvc.None? { return false; }
      disks := disks + [Disk(USER_ROOTFS, USER_ROOTFS_SERIAL)];
      if pvc.Some? {
        volumes := volumes + [VmVolume(USER_ROOTFS, ClaimDisk(pvc.value))];
        return true;
      }
      var capacity := Capacity.CapacityN(input.rootfsBytes, WorkloadCount(input.pod));
      volumes := volumes + [VmVolume(USER_ROOTFS, EmptyDisk(capacity))];
      return true;
    }

    /** applySRIOV; on error it adds neither interface nor network. */
    method ApplySriov(input: Input) returns (ok: bool)
      modifies this`interfaces, this`networks
      ensures interfaces == old(interfaces) + NetworkNames(input)[1..]
      ensures networks == old(networks) + NetworkList(input)[1..]
      ensures ok == !SriovFails(input)
    {
      ghost var names, nets := NetworkNames(input)[1..], NetworkList(input)[1..];
      var count := SumRequests(input.pod.containers, IsSriov);
      if count == 0 { return true; }
      if input.tee != Off { return false; }
      var nad := NadOf(input);
      if nad == "" { return false; }
      var i := 0;
      while i < count
        invariant 0 <= i && (count > 0 ==> i <= count) && (count <= 0 ==> i == 0)
        invariant interfaces == old(interfaces) + names[..i]
        invariant networks == old(networks) + nets[..i]
      {
        assert names[i] == SriovName(i) && names[..i + 1] == names[..i] + [names[i]];
        assert nets[i] == Multus(SriovName(i), nad) && nets[..i + 1] == nets[..i] + [nets[i]];
        interfaces := interfaces + [SriovName(i)];
        networks := networks + [Multus(SriovName(i), nad)];
        i := i + 1;
      }
      assert names[..i] == names && nets[..i] == nets;
      return true;
    }

    /** The body of applyVolumes' second loop: one volume and its uses. */
    method ApplyVolume(v: Volume, rootfs: string, us: seq<Use>) returns (rows: seq<TableRow>)
      requires forall u :: u in us ==> u.volume == v.name
      modifies this`disks, this`volumes
      ensures rows == if IsRootfs(v, rootfs) then [] else RowsOf(v, us)
      ensures Attached(v, rootfs) ==>
                && disks == old(disks) + [Disk(VolName(v), DiskSerial(v.name))]
                && volumes == old(volumes) + [VmVolume(VolName(v), ClaimDisk(v.pvc.value))]
      ensures !Attached(v, rootfs) ==> disks == old(disks) && volumes == old(volumes)
    {
      rows := [];
      if IsRootfs(v, rootfs) { return; }
      if v.pvc.Some? {
        var serial := ComputeSerial(v.name);
        disks := disks + [Disk(VolName(v), serial)];
        volumes := volumes + [VmVolume(VolName(v), ClaimDisk(v.pvc.value))];
      }
      rows := VolumeRows(v, us);
    }

    /** applyVolumes, on the restored Pod. */
    method ApplyVolumes(p: Pod) returns (rows: seq<TableRow>)
      modifies this`disks, this`volumes
      ensures rows == Table(p.volumes, p.rootfsVolume, AllUses(p.containers))
      ensures DistinctVolumes(p.volumes) ==>
                multiset(rows) == multiset(Flat(p.containers, (c: Container) => RowsFor(p, c)))
      ensures AllClaims(AttachedOf(p.volumes, p.rootfsVolume))
      ensures disks == old(disks) + DisksFor(AttachedOf(p.volumes, p.rootfsVolume))
      ensures volumes == old(volumes) + ClaimsFor(AttachedOf(p.volumes, p.rootfsVolume))
    {
      if DistinctVolumes(p.volumes) { TranslatorTableIs(p, p.containers); }
      rows := [];
      var uses := CollectUses(p.containers);
      ghost var us := AllUses(p.containers);
      ghost var a: seq<Volume>, ds, cs := [], disks, volumes;
      assert ds + DisksFor(a) == ds && cs + ClaimsFor(a) == cs;
      for i := 0 to |p.volumes|
        invariant rows == Table(p.volumes[..i], p.rootfsVolume, us)
        invariant a == AttachedOf(p.volumes[..i], p.rootfsVolume) && AllClaims(a)
        invariant disks == ds + DisksFor(a) && volumes == cs + ClaimsFor(a)
      {
        var v := p.volumes[i];
        GroupOf(uses, us, v);
        TableStep(p.volumes, i, p.rootfsVolume, us);
        var more := ApplyVolume(v, p.rootfsVolume, Get(uses, v.name));
        rows := rows + more;
        if Attached(v, p.rootfsVolume) {
          ListsSnoc(ds, cs, a, v);
          a := a + [v];
        }
      }
      assert p.volumes[..|p.volumes|] == p.volumes;
    }

    /** The passes before applyHugepages. */
    method ApplyBase(input: Input) returns (ok: bool)
      requires WorkloadCount(input.pod) <= Capacity.MAX_WORKLOADS
      requires disks == [] && volumes == [] && interfaces == [] && networks == []
      modifies this`disks, this`volumes, this`interfaces, this`networks
      ensures disks == BaseDisks(input) && volumes == BaseVolumes(input)
      ensures interfaces == [DEFAULT_NET] && networks == [PodNetwork(DEFAULT_NET)]
      ensures ok == !UserRootfsFails(input.pod)
    {
      ApplyNetwork();
      ApplyRootfs();
      ok := ApplyUserRootfs(input);
    }

    /** The passes after applyHugepages. */
    method ApplyDevices(input: Input) returns (rows: seq<TableRow>, ok: bool)
      requires WorkloadCount(input.pod) <= Capacity.MAX_WORKLOADS
      requires disks == BaseDisks(input) && volumes == BaseVolumes(input)
      requires interfaces == [DEFAULT_NET] && networks == [PodNetwork(DEFAULT_NET)]
      modifies this`disks, this`volumes, this`interfaces, this`networks
      ensures disks == DiskList(input) && volumes == VolumeList(input)
      ensures interfaces == NetworkNames(input) && networks == NetworkList(input)
      ensures var src := Restore(input.pod);
              rows == Table(src.volumes, src.rootfsVolume, AllUses(src.containers))
      ensures ok == !SriovFails(input)
    {
      ok := ApplySriov(input);
      assert [DEFAULT_NET] + NetworkNames(input)[1..] == NetworkNames(input);
      assert [PodNetwork(DEFAULT_NET)] + NetworkList(input)[1..] == NetworkList(input);
      rows := ApplyVolumes(Restore(input.pod));
    }

    /** applyHugepages. */
    method ApplyHugepages(p: Pod) returns (page: string, ok: bool)
      modifies this`hugepages, this`requests, this`limits
      ensures var d := Decide(p.containers, guestMemory);
              && ok == !d.ManySizes? && page == (if d.Backed? then d.page else "")
              && hugepages == (if d.Backed? then d.page else old(hugepages))
              && requests == old(requests) + Backing(d, guestMemory) && limits == old(limits) + Backing(d, guestMemory)
    {
      assert requests + map[] == requests && limits + map[] == limits;
      var sizes := ListSizes(p.containers);
      var qty := SumRequests(p.containers, IsHuge);
      var last := if sizes == [] then "" else sizes[|sizes| - 1];
      if last == "" { return "", true; }
      var distinct := set s | s in sizes;
      if |distinct| > 1 {
        SeveralSizes(sizes, last);
        return "", false;
      }
      OneSize(sizes, last);
      if qty < guestMemory { return "", true; }
      hugepages := last;
      requests := requests["hugepages-" + last := guestMemory];
      limits := limits["hugepages-" + last := guestMemory];
      return last, true;
    }
  }

  predicate AllClaims(vs: seq<Volume>) { forall v :: v in vs ==> v.pvc.Some? }

  lemma ListsSnoc(ds: seq<Disk>, cs: seq<VmVolume>, vs: seq<Volume>, v: Volume)
    requires AllClaims(vs) && v.pvc.Some?
    ensures AllClaims(vs + [v])
    ensures ds + DisksFor(vs + [v]) == ds + DisksFor(vs) + [Disk(VolName(v), DiskSerial(v.name))]
    ensures cs + ClaimsFor(vs + [v]) == cs + ClaimsFor(vs) + [VmVolume(VolName(v), ClaimDisk(v.pvc.value))]
  {
    assert DisksFor(vs + [v]) == DisksFor(vs) + [Disk(VolName(v), DiskSerial(v.name))];
    assert ClaimsFor(vs + [v]) == ClaimsFor(vs) + [VmVolume(VolName(v), ClaimDisk(v.pvc.value))];
  }

  lemma {:induction false} TableStep(vs: seq<Volume>, i: nat, rootfs: string, us: seq<Use>)
    requires i < |vs|
    ensures Table(vs[..i + 1], rootfs, us) ==
            Table(vs[..i], rootfs, us) + if IsRootfs(vs[i], rootfs) then [] else RowsOf(vs[i], us)
    ensures AttachedOf(vs[..i + 1], rootfs) ==
            AttachedOf(vs[..i], rootfs) + if Attached(vs[i], rootfs) then [vs[i]] else []
  {
    assert vs[..i + 1][..i] == vs[..i];
  }

  lemma {:induction false} GroupOf(uses: map<string, seq<Use>>, us: seq<Use>, v: Volume)
    requires Groups(uses, us)
    ensures forall u :: u in Get(uses, v.name) ==> u.volume == v.name
    ensures RowsOf(v, Get(uses, v.name)) == RowsOf(v, us)
  {
    UsesNamedHaveName(us, v.name);
    assert Get(uses, v.name) == UsesNamed(us, v.name);
    RowsFromGroup(v, us);
  }

  lemma SeveralSizes(sizes: seq<string>, last: string)
    requires |set s | s in sizes| > 1
    ensures exists s :: s in sizes && s != last
  {
    var distinct := set s | s in sizes;
    if forall s :: s in sizes ==> s == last {
      assert distinct <= {last};
      SubsetSmall(distinct, last);
    }
  }

  lemma SubsetSmall(a: set<string>, x: string)
    requires a <= {x}
    ensures |a| <= 1
  {
    assert a == {} || a == {x};
  }

  lemma OneSize(sizes: seq<string>, last: string)
    requires last in sizes && |set s | s in sizes| <= 1
    ensures forall s :: s in sizes ==> s == last
  {
    var distinct := set s | s in sizes;
    forall s | s in sizes ensures s == last {
      assert s in distinct && last in distinct;
      assert |distinct - {last}| == 0;
    }
  }

  /** The hugepage sizes requested, in order. */
  method ListSizes(cs: seq<Container>) returns (sizes: seq<string>)
    ensures sizes == AllSuffixes(cs)
  {
    sizes := [];
    for i := 0 to |cs|
      invariant sizes == AllSuffixes(cs[..i])
    {
      assert cs[..i + 1][..i] == cs[..i];
      var rs := cs[i].requests;
      var part := [];
      for k := 0 to |rs|
        invariant part == Suffixes(rs[..k])
      {
        assert rs[..k + 1][..k] == rs[..k];
        if IsHuge(rs[k]) { part := part + [rs[k].resource[10..]]; }
      }
      assert rs[..|rs|] == rs;
      sizes := sizes + part;
    }
    assert cs[..|cs|] == cs;
  }

  /** The names of host devices: those of two vendors, of GPUs, and all with
      "sriov" somewhere in them. */
  ghost predicate NamesDevice(s: string) {
    || (exists t :: s == "intel.com/" + t) || (exists t :: s == "nvidia.com/" + t) || (exists t :: s == "gpu" + t)
    || (exists t, u :: s == t + "sriov" + u)
  }

  /** The test of the loop. */
  predicate HostDevice(s: string) {
    || HasPrefix(s, "intel.com/") || HasPrefix(s, "nvidia.com/")
    || (exists i :: 0 <= i <= |s| && HasPrefix(s[i..], "sriov")) || HasPrefix(s, "gpu")
  }

  lemma PrefixIs(s: string, p: string)
    ensures HasPrefix(s, p) <==> exists t :: s == p + t
  {
    if HasPrefix(s, p) { assert s == p + s[|p|..]; }
  }

  lemma ContainsIs(s: string, p: string)
    ensures (exists i :: 0 <= i <= |s| && HasPrefix(s[i..], p)) <==> exists t, u :: s == t + p + u
  {
    if i :| 0 <= i <= |s| && HasPrefix(s[i..], p) {
      assert s == s[..i] + p + s[i..][|p|..];
    }
    if t, u :| s == t + p + u {
      assert s[|t|..] == p + u && HasPrefix(s[|t|..], p);
    }
  }

  lemma HostDeviceIs(s: string)
    ensures HostDevice(s) <==> NamesDevice(s)
  {
    PrefixIs(s, "intel.com/");
    PrefixIs(s, "nvidia.com/");
    PrefixIs(s, "gpu");
    ContainsIs(s, "sriov");
  }

  /** hasSRIOVOrHostDevice, the loop over the containers' requests. */
  method HasHostDevice(cs: seq<Container>) returns (found: bool)
    ensures found <==> exists c, r :: c in cs && r in c.requests && NamesDevice(r.resource)
  {
    for i := 0 to |cs|
      invariant forall c, r :: c in cs[..i] && r in c.requests ==> !NamesDevice(r.resource)
    {
      var rs := cs[i].requests;
      for k := 0 to |rs|
        invariant forall r :: r in rs[..k] ==> !NamesDevice(r.resource)
      {
        HostDeviceIs(rs[k].resource);
        if HostDevice(rs[k].resource) {
          assert cs[i] in cs && rs[k] in cs[i].requests;
          return true;
        }
        assert rs[..k + 1] == rs[..k] + [rs[k]];
      }
      assert rs[..|rs|] == rs && cs[..i + 1] == cs[..i] + [cs[i]];
    }
    assert cs[..|cs|] == cs;
    return false;
  }

  function One(fails: bool): nat { if fails then 1 else 0 }

  /** What the failing passes add to the list of errors. */
  function Failures(input: Input, guestMemory: int): nat {
    One(UserRootfsFails(input.pod)) + One(Decide(input.pod.containers, guestMemory).ManySizes?)
    + One(SriovFails(input)) + One(input.resourceClaims > 0)
  }

  /** The VMI has the listed devices. */
  ghost predicate Wired(vmi: Vmi, input: Input)
    requires WorkloadCount(input.pod) <= Capacity.MAX_WORKLOADS
    reads vmi
  {
    && vmi.disks == DiskList(input) && vmi.volumes == VolumeList(input)
    && vmi.interfaces == NetworkNames(input) && vmi.networks == NetworkList(input)
  }

  /** Hugepages back all of the guest's memory or none, as decided. */
  ghost predicate Paged(vmi: Vmi, input: Input)
    reads vmi
  {
    var d := Decide(input.pod.containers, vmi.guestMemory);
    && vmi.hugepages == (if d.Backed? then d.page else "")
    && vmi.requests == vmi.limits == if d.Backed? then map["hugepages-" + d.page := vmi.guestMemory] else map[]
  }

  /** A new VMI after the passes up to applyHugepages. */
  method Prepare(input: Input, cores: int, memory: int) returns (vmi: Vmi, errors: nat)
    requires WorkloadCount(input.pod) <= Capacity.MAX_WORKLOADS
    ensures fresh(vmi) && vmi.cores == cores && vmi.guestMemory == memory && Paged(vmi, input)
    ensures vmi.disks == BaseDisks(input) && vmi.volumes == BaseVolumes(input)
    ensures vmi.interfaces == [DEFAULT_NET] && vmi.networks == [PodNetwork(DEFAULT_NET)]
    ensures errors == One(UserRootfsFails(input.pod)) + One(Decide(input.pod.containers, memory).ManySizes?)
  {
    vmi := new Vmi(cores, memory);
    var baseOk := vmi.ApplyBase(input);
    var page, hugeOk := vmi.ApplyHugepages(input.pod);
    BackingAlone(Decide(input.pod.containers, memory), memory);
    errors := One(!baseOk) + One(!hugeOk);
  }

  /** The passes over a new VMI, in order. */
  method Assemble(input: Input, cores: int, memory: int) returns (vmi: Vmi, rows: seq<TableRow>, errors: nat)
    requires WorkloadCount(input.pod) <= Capacity.MAX_WORKLOADS
    ensures vmi.cores == cores && vmi.guestMemory == memory && Wired(vmi, input) && Paged(vmi, input)
    ensures var src := Restore(input.pod); rows == Table(src.volumes, src.rootfsVolume, AllUses(src.containers))
    ensures errors == Failures(input, memory)
  {
    var devicesOk;
    vmi, errors := Prepare(input, cores, memory);
    rows, devicesOk := vmi.ApplyDevices(input);
    errors := errors + One(!devicesOk) + One(input.resourceClaims > 0);
  }

  /** Translate.  Whatever the passes report, a VMI that is built has the listed
      devices and is sized and paged as decided. */
  method Build(input: Input, overheadCpu: int, overheadMemory: int, convert: int -> Uint32)
    returns (vmi: Vmi?, rows: seq<TableRow>, errors: nat)
    requires WorkloadCount(input.pod) <= Capacity.MAX_WORKLOADS
    ensures vmi == null <==>
              && input.tee != Off
              && (input.resourceClaims > 0 ||
                  exists c, r :: c in input.pod.containers && r in c.requests && NamesDevice(r.resource))
    ensures vmi == null ==> rows == [] && errors == 1
    ensures vmi != null ==>
              && Wired(vmi, input) && Paged(vmi, input)
              && Sized(vmi.cores, vmi.guestMemory, input.pod, overheadCpu, overheadMemory, input.tee, convert)
    ensures vmi != null ==> var src := Restore(input.pod);
                            && rows == Table(src.volumes, src.rootfsVolume, AllUses(src.containers))
                            && errors == Failures(input, vmi.guestMemory)
  {
    if input.tee != Off {
      var found := HasHostDevice(input.pod.containers);
      if found || input.resourceClaims > 0 { return null, [], 1; }
    }
    var cores, memory := GuestCompute(input.pod, overheadCpu, overheadMemory, input.tee, convert);
    vmi, rows, errors := Assemble(input, cores, memory);
  }
}
