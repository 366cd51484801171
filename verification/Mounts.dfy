/** Two mount tables for one Pod.

    The translator lists the guest's mounts volume by volume while it attaches
    disks; the shim lists them container by container when it starts one.  This
    module proves that the two agree, and what the virtio serials that tie a
    guest mount to its disk promise. */
module Mounts {
  import opened Options
  import opened Pods
  import opened Volumes

  // ---------------------------------------------------------------- serials

  const USER_ROOTFS_SERIAL := "userrootfs"

  predicate IsAlnum(c: char) {
    'a' <= c <= 'z' || 'A' <= c <= 'Z' || '0' <= c <= '9'
  }

  /** By character code: the digits, the capitals and the small letters. */
  lemma AlnumIs(c: char)
    ensures IsAlnum(c) <==> 48 <= c as int < 58 || 65 <= c as int < 91 || 97 <= c as int < 123
  {
  }

  function Alnum(s: string): string {
    if s == "" then "" else Alnum(s[..|s| - 1]) + if IsAlnum(s[|s| - 1]) then [s[|s| - 1]] else ""
  }

  function Clip(s: string, n: nat): string {
    if |s| <= n then s else s[..n]
  }

  /** The first 19 alphanumeric characters of a name. */
  function Stem(name: string): string { Clip(Alnum(name), 19) }

  function DiskSerial(name: string): string {
    if Stem(name) == "" then "vdisk" else "v" + Stem(name)
  }

  /** DiskSerial's loop. */
  method ComputeSerial(name: string) returns (serial: string)
    ensures serial == DiskSerial(name)
  {
    serial := "v";
    var i := 0;
    while i < |name| && |serial| < 20
      invariant 0 <= i <= |name|
      invariant serial == "v" + Alnum(name[..i]) && |serial| <= 20
    {
      assert name[..i + 1][..i] == name[..i];
      if IsAlnum(name[i]) { serial := serial + [name[i]]; }
      i := i + 1;
    }
    AlnumPrefix(name, i);
    assert i == |name| ==> name[..i] == name;
    assert Alnum(name[..i]) == Stem(name);
    if |serial| == 1 { serial := "vdisk"; }
  }

  lemma {:induction false} AlnumPrefix(s: string, i: nat)
    requires i <= |s|
    ensures Alnum(s[..i]) <= Alnum(s)
    decreases |s| - i
  {
    if i == |s| {
      assert s[..i] == s;
    } else {
      assert s[..i + 1][..i] == s[..i];
      AlnumPrefix(s, i + 1);
    }
  }

  lemma {:induction false} AlnumIsAlnum(s: string)
    ensures forall c :: c in Alnum(s) ==> IsAlnum(c)
    ensures (forall c :: c in s ==> IsAlnum(c)) ==> Alnum(s) == s
  {
    if s != "" {
      var init := s[..|s| - 1];
      AlnumIsAlnum(init);
      assert s[|s| - 1] in s && s == init + [s[|s| - 1]];
    }
  }

  /** At most 20 characters, all alphanumeric, and never the user-rootfs serial. */
  lemma SerialShape(name: string)
    ensures 2 <= |DiskSerial(name)| <= 20
    ensures forall c :: c in DiskSerial(name) ==> IsAlnum(c)
    ensures DiskSerial(name) != USER_ROOTFS_SERIAL
  {
    AlnumIsAlnum(name);
    assert DiskSerial(name)[0] == 'v' && USER_ROOTFS_SERIAL[0] == 'u';
  }

  /** The names' first 19 alphanumeric characters agree, or one name has none
      and the other's are "disk". */
  predicate Collide(a: string, b: string) {
    Stem(a) == Stem(b) || (Stem(a) == "" && Stem(b) == "disk") || (Stem(b) == "" && Stem(a) == "disk")
  }

  /** Two volumes share a serial exactly when their names collide. */
  lemma SerialsCollideExactly(a: string, b: string)
    ensures DiskSerial(a) == DiskSerial(b) <==> Collide(a, b)
  {
    assert "vdisk" == "v" + "disk";
    assert ("v" + Stem(a))[1..] == Stem(a) && ("v" + Stem(b))[1..] == Stem(b) && "vdisk"[1..] == "disk";
  }

  /** Characters other than letters and digits do not matter: "data-1" and
      "data1" collide. */
  lemma IgnoredCharacter(a: string, c: char, b: string)
    requires !IsAlnum(c)
    ensures Collide(a + [c] + b, a + b)
  {
    assert [c][..0] == "" && Alnum([c]) == "";
    AlnumConcat(a, [c]);
    AlnumConcat(a + [c], b);
    AlnumConcat(a, b);
    assert Alnum(a) + "" == Alnum(a);
  }

  /** Nor does anything past the nineteenth letter or digit. */
  lemma {:induction false} IgnoredTail(a: string, b: string)
    requires |Alnum(a)| >= 19
    ensures Collide(a + b, a)
  {
    AlnumConcat(a, b);
    assert (Alnum(a) + Alnum(b))[..19] == Alnum(a)[..19];
  }

  lemma {:induction false} AlnumConcat(a: string, b: string)
    ensures Alnum(a + b) == Alnum(a) + Alnum(b)
  {
    if b == "" {
      assert a + b == a;
    } else {
      AlnumConcat(a, b[..|b| - 1]);
      assert (a + b)[..|a + b| - 1] == a + b[..|b| - 1];
    }
  }

  /** A short alphanumeric name's serial is the name behind a "v"; a name without
      letters and digits has the serial "vdisk". */
  lemma SerialOfShortName(name: string)
    ensures 1 <= |name| <= 19 && (forall c :: c in name ==> IsAlnum(c)) ==> DiskSerial(name) == "v" + name
    ensures (forall c :: c in name ==> !IsAlnum(c)) ==> DiskSerial(name) == "vdisk"
  {
    AlnumIsAlnum(name);
    NoAlnum(name);
  }

  lemma {:induction false} NoAlnum(s: string)
    ensures (forall c :: c in s ==> !IsAlnum(c)) ==> Alnum(s) == ""
  {
    if s != "" {
      NoAlnum(s[..|s| - 1]);
      assert s[|s| - 1] in s && forall c :: c in s[..|s| - 1] ==> c in s;
    }
  }

  /** On non-empty alphanumeric names of at most 19 characters serials are unique. */
  lemma SerialInjective(a: string, b: string)
    requires 1 <= |a| <= 19 && 1 <= |b| <= 19
    requires (forall c :: c in a ==> IsAlnum(c)) && (forall c :: c in b ==> IsAlnum(c))
    ensures DiskSerial(a) == DiskSerial(b) ==> a == b
  {
    AlnumIsAlnum(a);
    AlnumIsAlnum(b);
    SerialsCollideExactly(a, b);
  }

  // ---------------------------------------------------------------- uses

  /** One mount or device of a container. */
  datatype Use = Use(volume: string, path: string, readOnly: bool, block: bool)

  function ToUse(r: Ref, block: bool): Use {
    Use(r.volume, r.path, r.readOnly && !block, block)
  }

  function ToUses(rs: seq<Ref>, block: bool): seq<Use> {
    seq(|rs|, i requires 0 <= i < |rs| => ToUse(rs[i], block))
  }

  function ContainerUses(c: Container): seq<Use> {
    ToUses(c.mounts, false) + ToUses(c.devices, true)
  }

  /** All uses, container by container, mounts before devices. */
  function AllUses(cs: seq<Container>): seq<Use> {
    if cs == [] then [] else AllUses(cs[..|cs| - 1]) + ContainerUses(cs[|cs| - 1])
  }

  // ---------------------------------------------------------------- the shim's table

  datatype Kind = Tmpfs | VirtioBlk | Block | Files

  datatype GuestMount = GuestMount(volume: string, path: string, kind: Kind, serial: string, readOnly: bool)

  /** The volumes by name, without the one used as root filesystem; a later
      volume replaces an earlier one of the same name. */
  function ByName(vs: seq<Volume>, rootfs: string): map<string, Volume> {
    if vs == [] then map[]
    else
      var m := ByName(vs[..|vs| - 1], rootfs);
      var v := vs[|vs| - 1];
      if rootfs != "" && v.name == rootfs then m else m[v.name := v]
  }

  function GuestMountOf(m: map<string, Volume>, u: Use): Option<GuestMount> {
    if u.volume !in m then None
    else
      var v := m[u.volume];
      if v.emptyDir && u.block then None
      else if !v.emptyDir && v.pvc.None? && !v.ephemeral then None
      else
        var kind := if v.emptyDir then Tmpfs else if u.block then Block else VirtioBlk;
        Some(GuestMount(v.name, u.path, kind,
                        if kind == Tmpfs then "" else DiskSerial(v.name),
                        u.readOnly || (v.pvc.Some? && v.pvc.value.readOnly)))
  }

  function GuestMountsOf(m: map<string, Volume>, us: seq<Use>): seq<GuestMount> {
    if us == [] then []
    else
      var g := GuestMountOf(m, us[|us| - 1]);
      GuestMountsOf(m, us[..|us| - 1]) + if g.Some? then [g.value] else []
  }

  function Named(cs: seq<Container>, name: string): seq<Container> {
    if cs == [] then []
    else Named(cs[..|cs| - 1], name) + if cs[|cs| - 1].name == name then [cs[|cs| - 1]] else []
  }

  /** GuestMountsFor: one container by name (init containers included), or every
      app container when the name is empty. */
  function GuestMountsFor(p: Pod, container: string): seq<GuestMount> {
    var src := Restore(p);
    var m := ByName(src.volumes, src.rootfsVolume);
    GuestMountsOf(m, AllUses(if container == "" then src.containers
                             else Named(src.inits + src.containers, container)))
  }

  // ---------------------------------------------------------------- the translator's table

  datatype TableRow = TableRow(volume: string, path: string, kind: Kind, readOnly: bool)

  function RowOf(v: Volume, u: Use): Option<TableRow> {
    if v.pvc.Some? then
      Some(TableRow(v.name, u.path, if u.block then Block else VirtioBlk, u.readOnly || v.pvc.value.readOnly))
    else if v.emptyDir then (if u.block then None else Some(TableRow(v.name, u.path, Tmpfs, false)))
    else if v.files then (if u.block then None else Some(TableRow(v.name, u.path, Files, false)))
    else None
  }

  /** The rows of one volume, from the uses that name it. */
  function RowsOf(v: Volume, us: seq<Use>): seq<TableRow> {
    if us == [] then []
    else
      var u := us[|us| - 1];
      RowsOf(v, us[..|us| - 1]) +
      if u.volume == v.name && RowOf(v, u).Some? then [RowOf(v, u).value] else []
  }

  predicate IsRootfs(v: Volume, rootfs: string) {
    rootfs != "" && v.name == rootfs
  }

  function Table(vs: seq<Volume>, rootfs: string, us: seq<Use>): seq<TableRow> {
    if vs == [] then []
    else
      var v := vs[|vs| - 1];
      Table(vs[..|vs| - 1], rootfs, us) + if IsRootfs(v, rootfs) then [] else RowsOf(v, us)
  }

  // ---------------------------------------------------------------- comparing them

  /** A mount of a PVC or emptyDir volume as both tables can describe it: the
      read-only flag counts for PVCs only. */
  datatype Row = Row(volume: string, path: string, kind: Kind, readOnly: bool)

  predicate Comparable(v: Volume) { v.pvc.Some? || v.emptyDir }

  ghost function GuestRows(gs: seq<GuestMount>, m: map<string, Volume>): multiset<Row> {
    if gs == [] then multiset{}
    else
      var g := gs[|gs| - 1];
      GuestRows(gs[..|gs| - 1], m) +
      if g.volume in m && Comparable(m[g.volume])
      then multiset{Row(g.volume, g.path, g.kind, g.readOnly && g.kind != Tmpfs)} else multiset{}
  }

  ghost function TableRows(ts: seq<TableRow>): multiset<Row> {
    if ts == [] then multiset{}
    else
      var t := ts[|ts| - 1];
      TableRows(ts[..|ts| - 1]) +
      if t.kind != Files then multiset{Row(t.volume, t.path, t.kind, t.readOnly)} else multiset{}
  }

  /** What one use adds to the shim's table. */
  ghost function GuestShare(m: map<string, Volume>, u: Use): multiset<Row> {
    if u.volume !in m then multiset{}
    else
      var v := m[u.volume];
      if v.emptyDir then
        (if u.block then multiset{} else multiset{Row(v.name, u.path, Tmpfs, false)})
      else if v.pvc.Some? then
        multiset{Row(v.name, u.path, if u.block then Block else VirtioBlk, u.readOnly || v.pvc.value.readOnly)}
      else multiset{}
  }

  /** What one use of volume `v` adds to the translator's table. */
  ghost function VolumeShare(v: Volume, u: Use): multiset<Row> {
    if u.volume == v.name && RowOf(v, u).Some? && RowOf(v, u).value.kind != Files
    then var t := RowOf(v, u).value; multiset{Row(t.volume, t.path, t.kind, t.readOnly)}
    else multiset{}
  }

  /** Keys are the names of the volumes they hold. */
  lemma {:induction false} ByNameNames(vs: seq<Volume>, rootfs: string)
    ensures forall n :: n in ByName(vs, rootfs) ==>
              ByName(vs, rootfs)[n].name == n && ByName(vs, rootfs)[n] in vs
              && !IsRootfs(ByName(vs, rootfs)[n], rootfs)
  {
    if vs != [] {
      var init := vs[..|vs| - 1];
      ByNameNames(init, rootfs);
      assert vs == init + [vs[|vs| - 1]];
    }
  }

  lemma {:induction false} ByNameFinds(vs: seq<Volume>, rootfs: string, i: nat)
    requires DistinctVolumes(vs) && i < |vs| && !IsRootfs(vs[i], rootfs)
    ensures vs[i].name in ByName(vs, rootfs) && ByName(vs, rootfs)[vs[i].name] == vs[i]
  {
    var init := vs[..|vs| - 1];
    if i < |init| {
      ByNameFinds(init, rootfs, i);
      assert vs[i].name != vs[|vs| - 1].name;
    }
  }

  /** The shim's rows are the sum of the uses' shares. */
  ghost function GuestSum(m: map<string, Volume>, us: seq<Use>): multiset<Row> {
    if us == [] then multiset{} else GuestSum(m, us[..|us| - 1]) + GuestShare(m, us[|us| - 1])
  }

  lemma {:induction false} GuestRowsSnoc(gs: seq<GuestMount>, g: GuestMount, m: map<string, Volume>)
    ensures GuestRows(gs + [g], m) ==
            GuestRows(gs, m) +
            if g.volume in m && Comparable(m[g.volume])
            then multiset{Row(g.volume, g.path, g.kind, g.readOnly && g.kind != Tmpfs)} else multiset{}
  {
    assert (gs + [g])[..|gs + [g]| - 1] == gs;
  }

  lemma {:induction false} GuestRowsAreShares(m: map<string, Volume>, us: seq<Use>)
    requires forall n :: n in m ==> m[n].name == n
    ensures GuestRows(GuestMountsOf(m, us), m) == GuestSum(m, us)
  {
    if us != [] {
      var init, u := us[..|us| - 1], us[|us| - 1];
      GuestRowsAreShares(m, init);
      var g := GuestMountOf(m, u);
      if g.Some? {
        GuestRowsSnoc(GuestMountsOf(m, init), g.value, m);
      } else {
        assert GuestMountsOf(m, us) == GuestMountsOf(m, init);
      }
    }
  }

  lemma {:induction false} TableRowsConcat(xs: seq<TableRow>, ys: seq<TableRow>)
    ensures TableRows(xs + ys) == TableRows(xs) + TableRows(ys)
  {
    if ys == [] {
      assert xs + ys == xs;
    } else {
      assert (xs + ys)[..|xs + ys| - 1] == xs + ys[..|ys| - 1];
      TableRowsConcat(xs, ys[..|ys| - 1]);
    }
  }

  /** One more use adds its share to the rows of its volume. */
  lemma {:induction false} RowsOfSnoc(v: Volume, us: seq<Use>, u: Use)
    ensures TableRows(RowsOf(v, us + [u])) == TableRows(RowsOf(v, us)) + VolumeShare(v, u)
  {
    assert (us + [u])[..|us|] == us;
    if u.volume == v.name && RowOf(v, u).Some? {
      var t := RowOf(v, u).value;
      TableRowsConcat(RowsOf(v, us), [t]);
      assert TableRows([t]) == TableRows([]) + VolumeShare(v, u) by { assert [t][..0] == []; }
    } else {
      assert RowsOf(v, us + [u]) == RowsOf(v, us);
    }
  }

  /** What one use adds to the translator's table, over all volumes. */
  ghost function TableShare(m: map<string, Volume>, u: Use): multiset<Row> {
    if u.volume in m then VolumeShare(m[u.volume], u) else multiset{}
  }

  /** Grouping by volume or by use gives the same sum. */
  lemma {:induction false} TableSnoc(vs: seq<Volume>, rootfs: string, us: seq<Use>, u: Use)
    requires DistinctVolumes(vs)
    ensures TableRows(Table(vs, rootfs, us + [u])) ==
            TableRows(Table(vs, rootfs, us)) + TableShare(ByName(vs, rootfs), u)
  {
    if vs != [] {
      var init, v := vs[..|vs| - 1], vs[|vs| - 1];
      TableSnoc(init, rootfs, us, u);
      ByNameNames(init, rootfs);
      if !IsRootfs(v, rootfs) {
        TableRowsConcat(Table(init, rootfs, us), RowsOf(v, us));
        TableRowsConcat(Table(init, rootfs, us + [u]), RowsOf(v, us + [u]));
        RowsOfSnoc(v, us, u);
        NotYetNamed(vs, rootfs);
      } else {
        assert Table(vs, rootfs, us + [u]) == Table(init, rootfs, us + [u]);
        assert Table(vs, rootfs, us) == Table(init, rootfs, us);
      }
    }
  }

  lemma NotYetNamed(vs: seq<Volume>, rootfs: string)
    requires DistinctVolumes(vs) && vs != []
    ensures vs[|vs| - 1].name !in ByName(vs[..|vs| - 1], rootfs)
  {
    var init := vs[..|vs| - 1];
    ByNameNames(init, rootfs);
    forall w | w in init ensures w.name != vs[|vs| - 1].name {
      var i :| 0 <= i < |init| && init[i] == w;
      assert vs[i] == w;
    }
  }

  ghost function TableSum(m: map<string, Volume>, us: seq<Use>): multiset<Row> {
    if us == [] then multiset{} else TableSum(m, us[..|us| - 1]) + TableShare(m, us[|us| - 1])
  }

  lemma {:induction false} TableOfNoUses(vs: seq<Volume>, rootfs: string)
    ensures Table(vs, rootfs, []) == []
  {
    if vs != [] { TableOfNoUses(vs[..|vs| - 1], rootfs); }
  }

  lemma {:induction false} TableRowsAreShares(vs: seq<Volume>, rootfs: string, us: seq<Use>)
    requires DistinctVolumes(vs)
    ensures TableRows(Table(vs, rootfs, us)) == TableSum(ByName(vs, rootfs), us)
  {
    if us == [] {
      TableOfNoUses(vs, rootfs);
    } else {
      var init, u := us[..|us| - 1], us[|us| - 1];
      assert us == init + [u];
      TableRowsAreShares(vs, rootfs, init);
      TableSnoc(vs, rootfs, init, u);
    }
  }

  /** A used volume that is both a PVC and an emptyDir; the API server admits
      one source per volume. */
  ghost predicate Conflict(m: map<string, Volume>, us: seq<Use>) {
    exists u :: u in us && u.volume in m && m[u.volume].pvc.Some? && m[u.volume].emptyDir
  }

  lemma SharesAgree(m: map<string, Volume>, u: Use)
    requires forall n :: n in m ==> m[n].name == n
    requires u.volume in m ==> !(m[u.volume].pvc.Some? && m[u.volume].emptyDir)
    ensures TableShare(m, u) == GuestShare(m, u)
  {
  }

  lemma {:induction false} SumsAgree(m: map<string, Volume>, us: seq<Use>)
    requires (forall n :: n in m ==> m[n].name == n) && !Conflict(m, us)
    ensures TableSum(m, us) == GuestSum(m, us)
  {
    if us != [] {
      var init, u := us[..|us| - 1], us[|us| - 1];
      assert us == init + [u] && u in us;
      assert forall w :: w in init ==> w in us;
      SumsAgree(m, init);
      SharesAgree(m, u);
    }
  }

  /** The translator lists a conflicting volume as a disk, the shim as tmpfs. */
  lemma {:induction false} ConflictShows(m: map<string, Volume>, us: seq<Use>, u: Use)
    requires forall n :: n in m ==> m[n].name == n
    requires u in us && u.volume in m && m[u.volume].pvc.Some? && m[u.volume].emptyDir
    ensures exists r :: r in TableSum(m, us) && r.volume == u.volume && r.kind != Tmpfs
  {
    var init, last := us[..|us| - 1], us[|us| - 1];
    assert us == init + [last];
    if u == last {
      var t := RowOf(m[u.volume], u).value;
      assert Row(t.volume, t.path, t.kind, t.readOnly) in TableSum(m, us);
    } else {
      ConflictShows(m, init, u);
      var r :| r in TableSum(m, init) && r.volume == u.volume && r.kind != Tmpfs;
      assert r in TableSum(m, us);
    }
  }

  lemma {:induction false} GuestSaysTmpfs(m: map<string, Volume>, us: seq<Use>, n: string)
    requires (forall k :: k in m ==> m[k].name == k) && n in m && m[n].emptyDir
    ensures forall r :: r in GuestSum(m, us) && r.volume == n ==> r.kind == Tmpfs
  {
    if us != [] {
      GuestSaysTmpfs(m, us[..|us| - 1], n);
    }
  }

  /** The two tables are the same multiset of rows for PVC and emptyDir volumes,
      exactly when no used volume claims to be both. */
  lemma {:induction false} TablesAgreeExactly(vs: seq<Volume>, rootfs: string, us: seq<Use>)
    requires DistinctVolumes(vs)
    ensures var m := ByName(vs, rootfs);
            TableRows(Table(vs, rootfs, us)) == GuestRows(GuestMountsOf(m, us), m) <==> !Conflict(m, us)
  {
    var m := ByName(vs, rootfs);
    ByNameNames(vs, rootfs);
    TableRowsAreShares(vs, rootfs, us);
    GuestRowsAreShares(m, us);
    if Conflict(m, us) {
      var u :| u in us && u.volume in m && m[u.volume].pvc.Some? && m[u.volume].emptyDir;
      ConflictShows(m, us, u);
      GuestSaysTmpfs(m, us, u.volume);
    } else {
      SumsAgree(m, us);
    }
  }

  /** For a Pod: what the translator lists for the app containers and what the
      shim lists for them agree, exactly when no used volume claims to be both. */
  lemma PodTablesAgreeExactly(p: Pod)
    requires DistinctVolumes(Restore(p).volumes)
    ensures var src := Restore(p);
            var m, us := ByName(src.volumes, src.rootfsVolume), AllUses(src.containers);
            TableRows(Table(src.volumes, src.rootfsVolume, us)) == GuestRows(GuestMountsFor(p, ""), m)
            <==> !Conflict(m, us)
  {
    var src := Restore(p);
    TablesAgreeExactly(src.volumes, src.rootfsVolume, AllUses(src.containers));
  }
}
