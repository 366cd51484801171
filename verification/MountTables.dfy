/** The two mount tables, reference by reference.

    Each table is stated on the containers' own mounts and devices: for each of
    them the row it gives, and no other rows. */
module MountTables {
  import opened Options
  import opened Sequences
  import opened Pods
  import opened Volumes
  import opened Mounts

  // ---------------------------------------------------------------- uses

  lemma {:induction false} ToUsesFlat<X>(rs: seq<Ref>, block: bool, f: Use -> seq<X>)
    ensures Flat(ToUses(rs, block), f) ==
            Flat(rs, (r: Ref) => f(Use(r.volume, r.path, !block && r.readOnly, block)))
  {
    if rs != [] {
      var us := ToUses(rs, block);
      assert us[0] == Use(rs[0].volume, rs[0].path, !block && rs[0].readOnly, block);
      assert us[1..] == ToUses(rs[1..], block);
      ToUsesFlat(rs[1..], block, f);
    }
  }

  /** What `f` makes of the mounts and devices of one container. */
  ghost function OfContainer<X>(c: Container, f: Use -> seq<X>): seq<X> {
    Flat(c.mounts, (r: Ref) => f(Use(r.volume, r.path, r.readOnly, false)))
    + Flat(c.devices, (r: Ref) => f(Use(r.volume, r.path, false, true)))
  }

  lemma ContainerFlat<X>(c: Container, f: Use -> seq<X>)
    ensures Flat(ContainerUses(c), f) == OfContainer(c, f)
  {
    FlatConcat(ToUses(c.mounts, false), ToUses(c.devices, true), f);
    ToUsesFlat(c.mounts, false, f);
    ToUsesFlat(c.devices, true, f);
    FlatSame(c.mounts, (r: Ref) => f(Use(r.volume, r.path, !false && r.readOnly, false)),
             (r: Ref) => f(Use(r.volume, r.path, r.readOnly, false)));
    FlatSame(c.devices, (r: Ref) => f(Use(r.volume, r.path, !true && r.readOnly, true)),
             (r: Ref) => f(Use(r.volume, r.path, false, true)));
  }

  lemma {:induction false} AllUsesFlat<X>(cs: seq<Container>, f: Use -> seq<X>)
    ensures Flat(AllUses(cs), f) == Flat(cs, (c: Container) => OfContainer(c, f))
  {
    if cs != [] {
      var init, c := cs[..|cs| - 1], cs[|cs| - 1];
      AllUsesFlat(init, f);
      FlatConcat(AllUses(init), ContainerUses(c), f);
      ContainerFlat(c, f);
      FlatSnoc(cs, (c: Container) => OfContainer(c, f));
    }
  }

  // ---------------------------------------------------------------- the shim's table

  /** The volume of this name, unless it is the root filesystem's. */
  ghost function TheVolume(vs: seq<Volume>, rootfs: string, name: string): (r: Option<Volume>)
    ensures r.Some? ==> r.value in vs && r.value.name == name && !(rootfs != "" && name == rootfs)
    ensures r.None? ==> (rootfs != "" && name == rootfs) || forall v :: v in vs ==> v.name != name
  {
    if (rootfs != "" && name == rootfs) || !exists v :: v in vs && v.name == name then None
    else var v :| v in vs && v.name == name; Some(v)
  }

  lemma {:induction false} LookupIsTheVolume(vs: seq<Volume>, rootfs: string, name: string)
    requires DistinctVolumes(vs)
    ensures var m := ByName(vs, rootfs);
            TheVolume(vs, rootfs, name) == if name in m then Some(m[name]) else None
  {
    var m := ByName(vs, rootfs);
    ByNameNames(vs, rootfs);
    var r := TheVolume(vs, rootfs, name);
    if r.Some? {
      var i :| 0 <= i < |vs| && vs[i] == r.value;
      ByNameFinds(vs, rootfs, i);
    }
  }

  /** The shim's row for a mount of this volume. */
  ghost function ShimMount(v: Option<Volume>, r: Ref): seq<GuestMount> {
    if v.None? then []
    else
      var readOnly := r.readOnly || (v.value.pvc.Some? && v.value.pvc.value.readOnly);
      if v.value.emptyDir then [GuestMount(r.volume, r.path, Tmpfs, "", readOnly)]
      else if v.value.pvc.Some? || v.value.ephemeral
      then [GuestMount(r.volume, r.path, VirtioBlk, DiskSerial(r.volume), readOnly)]
      else []
  }

  /** Its row for a device. */
  ghost function ShimDevice(v: Option<Volume>, r: Ref): seq<GuestMount> {
    if v.None? || v.value.emptyDir then []
    else if v.value.pvc.Some? || v.value.ephemeral
    then [GuestMount(r.volume, r.path, Block, DiskSerial(r.volume), v.value.pvc.Some? && v.value.pvc.value.readOnly)]
    else []
  }

  /** The rows of one container: its mounts, then its devices. */
  ghost function ShimRows(p: Pod, c: Container): seq<GuestMount> {
    Flat(c.mounts, (r: Ref) => ShimMount(TheVolume(p.volumes, p.rootfsVolume, r.volume), r))
    + Flat(c.devices, (r: Ref) => ShimDevice(TheVolume(p.volumes, p.rootfsVolume, r.volume), r))
  }

  ghost function GuestMountSeq(m: map<string, Volume>, u: Use): seq<GuestMount> {
    var g := GuestMountOf(m, u);
    if g.Some? then [g.value] else []
  }

  lemma {:induction false} GuestMountsFlat(m: map<string, Volume>, us: seq<Use>)
    ensures GuestMountsOf(m, us) == Flat(us, (u: Use) => GuestMountSeq(m, u))
  {
    if us != [] {
      GuestMountsFlat(m, us[..|us| - 1]);
      FlatSnoc(us, (u: Use) => GuestMountSeq(m, u));
    }
  }

  lemma ShimContainer(p: Pod, c: Container)
    requires DistinctVolumes(p.volumes)
    ensures var m := ByName(p.volumes, p.rootfsVolume);
            OfContainer(c, (u: Use) => GuestMountSeq(m, u)) == ShimRows(p, c)
  {
    var m := ByName(p.volumes, p.rootfsVolume);
    var f := (u: Use) => GuestMountSeq(m, u);
    ByNameNames(p.volumes, p.rootfsVolume);
    forall name ensures TheVolume(p.volumes, p.rootfsVolume, name) == if name in m then Some(m[name]) else None {
      LookupIsTheVolume(p.volumes, p.rootfsVolume, name);
    }
    FlatSame(c.mounts, (r: Ref) => f(Use(r.volume, r.path, r.readOnly, false)),
             (r: Ref) => ShimMount(TheVolume(p.volumes, p.rootfsVolume, r.volume), r));
    FlatSame(c.devices, (r: Ref) => f(Use(r.volume, r.path, false, true)),
             (r: Ref) => ShimDevice(TheVolume(p.volumes, p.rootfsVolume, r.volume), r));
  }

  lemma {:induction false} ShimContainers(p: Pod, cs: seq<Container>)
    requires DistinctVolumes(p.volumes)
    ensures GuestMountsOf(ByName(p.volumes, p.rootfsVolume), AllUses(cs)) == Flat(cs, (c: Container) => ShimRows(p, c))
  {
    var m := ByName(p.volumes, p.rootfsVolume);
    var f := (u: Use) => GuestMountSeq(m, u);
    GuestMountsFlat(m, AllUses(cs));
    AllUsesFlat(cs, f);
    forall c | c in cs ensures OfContainer(c, f) == ShimRows(p, c) { ShimContainer(p, c); }
    FlatSame(cs, (c: Container) => OfContainer(c, f), (c: Container) => ShimRows(p, c));
  }

  lemma {:induction false} NamedIsFilter(cs: seq<Container>, name: string)
    ensures Named(cs, name) == Filter(cs, (c: Container) => c.name == name)
  {
    if cs != [] {
      NamedIsFilter(cs[..|cs| - 1], name);
      FilterSnoc(cs, (c: Container) => c.name == name);
    }
  }

  /** The shim's table: without a name the rows of every app container, with one
      the rows of every init and app container of that name, in order. */
  lemma ShimTableIs(p: Pod, container: string)
    requires DistinctVolumes(Restore(p).volumes)
    ensures var src := Restore(p);
            GuestMountsFor(p, container) ==
            Flat(if container == "" then src.containers
                 else Filter(src.inits + src.containers, (c: Container) => c.name == container),
                 (c: Container) => ShimRows(src, c))
  {
    var src := Restore(p);
    NamedIsFilter(src.inits + src.containers, container);
    ShimContainers(src, if container == "" then src.containers else Named(src.inits + src.containers, container));
  }

  // ---------------------------------------------------------------- the translator's table

  /** The translator's row for a mount of this volume. */
  ghost function RowMount(v: Option<Volume>, r: Ref): seq<TableRow> {
    if v.None? then []
    else if v.value.pvc.Some? then [TableRow(r.volume, r.path, VirtioBlk, r.readOnly || v.value.pvc.value.readOnly)]
    else if v.value.emptyDir then [TableRow(r.volume, r.path, Tmpfs, false)]
    else if v.value.files then [TableRow(r.volume, r.path, Files, false)]
    else []
  }

  /** Its row for a device. */
  ghost function RowDevice(v: Option<Volume>, r: Ref): seq<TableRow> {
    if v.Some? && v.value.pvc.Some? then [TableRow(r.volume, r.path, Block, v.value.pvc.value.readOnly)] else []
  }

  /** The rows of one container's mounts and devices. */
  ghost function RowsFor(p: Pod, c: Container): seq<TableRow> {
    Flat(c.mounts, (r: Ref) => RowMount(TheVolume(p.volumes, p.rootfsVolume, r.volume), r))
    + Flat(c.devices, (r: Ref) => RowDevice(TheVolume(p.volumes, p.rootfsVolume, r.volume), r))
  }

  ghost function RowSeq(m: map<string, Volume>, u: Use): seq<TableRow> {
    if u.volume in m && RowOf(m[u.volume], u).Some? then [RowOf(m[u.volume], u).value] else []
  }

  lemma {:induction false} RowsOfGrow(v: Volume, us: seq<Use>, u: Use)
    ensures RowsOf(v, us + [u]) == RowsOf(v, us) + LastRow(v, u)
  {
    assert (us + [u])[..|us|] == us;
  }

  lemma MergeRows<T>(t0: seq<T>, t1: seq<T>, rows: seq<T>, rest: seq<T>, more: seq<T>)
    requires multiset(t1) == multiset(t0) + multiset(rest)
    ensures multiset(t1 + (rows + more)) == multiset(t0 + rows) + (multiset(rest) + multiset(more))
  {
    assert multiset(t1 + (rows + more)) == multiset(t1) + (multiset(rows) + multiset(more));
    assert multiset(t0 + rows) == multiset(t0) + multiset(rows);
  }

  /** One more use adds its row, whichever volume it is grouped under. */
  lemma {:induction false} TableGrows(vs: seq<Volume>, rootfs: string, us: seq<Use>, u: Use)
    requires DistinctVolumes(vs)
    ensures multiset(Table(vs, rootfs, us + [u])) ==
            multiset(Table(vs, rootfs, us)) + multiset(RowSeq(ByName(vs, rootfs), u))
  {
    if vs != [] {
      var init, v := vs[..|vs| - 1], vs[|vs| - 1];
      TableGrows(init, rootfs, us, u);
      if !IsRootfs(v, rootfs) { TableGrowsBy(vs, rootfs, us, u); }
    }
  }

  /** The row a use gives under the last volume alone. */
  ghost function LastRow(v: Volume, u: Use): seq<TableRow> {
    if u.volume == v.name && RowOf(v, u).Some? then [RowOf(v, u).value] else []
  }

  lemma {:induction false} RowOfLastVolume(vs: seq<Volume>, rootfs: string, u: Use)
    requires DistinctVolumes(vs) && vs != [] && !IsRootfs(vs[|vs| - 1], rootfs)
    ensures multiset(RowSeq(ByName(vs, rootfs), u)) ==
            multiset(RowSeq(ByName(vs[..|vs| - 1], rootfs), u)) + multiset(LastRow(vs[|vs| - 1], u))
  {
    NotYetNamed(vs, rootfs);
  }

  lemma TableGrowsBy(vs: seq<Volume>, rootfs: string, us: seq<Use>, u: Use)
    requires DistinctVolumes(vs) && vs != [] && !IsRootfs(vs[|vs| - 1], rootfs)
    requires var init := vs[..|vs| - 1];
             multiset(Table(init, rootfs, us + [u])) ==
             multiset(Table(init, rootfs, us)) + multiset(RowSeq(ByName(init, rootfs), u))
    ensures multiset(Table(vs, rootfs, us + [u])) ==
            multiset(Table(vs, rootfs, us)) + multiset(RowSeq(ByName(vs, rootfs), u))
  {
    var init, v := vs[..|vs| - 1], vs[|vs| - 1];
    RowsOfGrow(v, us, u);
    RowOfLastVolume(vs, rootfs, u);
    MergeRows(Table(init, rootfs, us), Table(init, rootfs, us + [u]), RowsOf(v, us),
              RowSeq(ByName(init, rootfs), u), LastRow(v, u));
  }

  lemma {:induction false} TableIsFlat(vs: seq<Volume>, rootfs: string, us: seq<Use>)
    requires DistinctVolumes(vs)
    ensures multiset(Table(vs, rootfs, us)) == multiset(Flat(us, (u: Use) => RowSeq(ByName(vs, rootfs), u)))
  {
    var f := (u: Use) => RowSeq(ByName(vs, rootfs), u);
    if us == [] {
      TableOfNoUses(vs, rootfs);
    } else {
      var init, u := us[..|us| - 1], us[|us| - 1];
      assert us == init + [u];
      TableIsFlat(vs, rootfs, init);
      TableGrows(vs, rootfs, init, u);
      FlatSnoc(us, f);
      assert multiset(Flat(init, f) + f(u)) == multiset(Flat(init, f)) + multiset(f(u));
    }
  }

  lemma RowContainer(p: Pod, c: Container)
    requires DistinctVolumes(p.volumes)
    ensures var m := ByName(p.volumes, p.rootfsVolume); OfContainer(c, (u: Use) => RowSeq(m, u)) == RowsFor(p, c)
  {
    var m := ByName(p.volumes, p.rootfsVolume);
    var f := (u: Use) => RowSeq(m, u);
    ByNameNames(p.volumes, p.rootfsVolume);
    forall name ensures TheVolume(p.volumes, p.rootfsVolume, name) == if name in m then Some(m[name]) else None {
      LookupIsTheVolume(p.volumes, p.rootfsVolume, name);
    }
    FlatSame(c.mounts, (r: Ref) => f(Use(r.volume, r.path, r.readOnly, false)),
             (r: Ref) => RowMount(TheVolume(p.volumes, p.rootfsVolume, r.volume), r));
    FlatSame(c.devices, (r: Ref) => f(Use(r.volume, r.path, false, true)),
             (r: Ref) => RowDevice(TheVolume(p.volumes, p.rootfsVolume, r.volume), r));
  }

  /** The translator's table is the rows of the containers' mounts and devices, each
      as often as it occurs, though grouped by volume. */
  lemma {:induction false} TranslatorTableIs(p: Pod, cs: seq<Container>)
    requires DistinctVolumes(p.volumes)
    ensures multiset(Table(p.volumes, p.rootfsVolume, AllUses(cs))) ==
            multiset(Flat(cs, (c: Container) => RowsFor(p, c)))
  {
    var m := ByName(p.volumes, p.rootfsVolume);
    var f := (u: Use) => RowSeq(m, u);
    TableIsFlat(p.volumes, p.rootfsVolume, AllUses(cs));
    AllUsesFlat(cs, f);
    forall c | c in cs ensures OfContainer(c, f) == RowsFor(p, c) { RowContainer(p, c); }
    FlatSame(cs, (c: Container) => OfContainer(c, f), (c: Container) => RowsFor(p, c));
  }
}
