/** What admission does to a Pod, field by field. */
module AdmittedPods {
  import opened Options
  import opened Sequences
  import opened Pods
  import opened Volumes

  lemma {:induction false} KeptIsFilter(vs: seq<Volume>)
    ensures Kept(vs) == Filter(vs, (v: Volume) => v.pvc.None? && !v.ephemeral && !v.emptyDir)
  {
    if vs != [] {
      KeptIsFilter(vs[..|vs| - 1]);
      FilterSnoc(vs, (v: Volume) => v.pvc.None? && !v.ephemeral && !v.emptyDir);
    }
  }

  lemma {:induction false} TakenIsFilter(vs: seq<Volume>)
    ensures Taken(vs) == Filter(vs, (v: Volume) => v.pvc.Some? || v.ephemeral || v.emptyDir)
  {
    if vs != [] {
      TakenIsFilter(vs[..|vs| - 1]);
      FilterSnoc(vs, (v: Volume) => v.pvc.Some? || v.ephemeral || v.emptyDir);
    }
  }

  lemma {:induction false} DroppingIsFilter(rs: seq<Ref>, names: set<string>)
    ensures Dropping(rs, names) == Filter(rs, (r: Ref) => r.volume !in names)
  {
    if rs != [] {
      DroppingIsFilter(rs[..|rs| - 1], names);
      FilterSnoc(rs, (r: Ref) => r.volume !in names);
    }
  }

  lemma {:induction false} PickingIsFilter(rs: seq<Ref>, names: set<string>)
    ensures Picking(rs, names) == Filter(rs, (r: Ref) => r.volume in names)
  {
    if rs != [] {
      PickingIsFilter(rs[..|rs| - 1], names);
      FilterSnoc(rs, (r: Ref) => r.volume in names);
    }
  }

  /** A volume of this name is a claim, ephemeral or an emptyDir. */
  ghost predicate Removed(vs: seq<Volume>, name: string) {
    exists v :: v in vs && v.name == name && (v.pvc.Some? || v.ephemeral || v.emptyDir)
  }

  lemma DoomedIsRemoved(vs: seq<Volume>)
    ensures forall n :: n in Doomed(vs) <==> Removed(vs, n)
  {
    forall n ensures n in Doomed(vs) <==> Removed(vs, n) {
      if Removed(vs, n) {
        var v :| v in vs && v.name == n && (v.pvc.Some? || v.ephemeral || v.emptyDir);
        assert IsStripped(v);
      }
    }
  }

  /** The container without its references to removed volumes. */
  ghost predicate WithoutRemoved(vs: seq<Volume>, c: Container, d: Container) {
    && d.name == c.name && d.requests == c.requests
    && d.mounts == Filter(c.mounts, (r: Ref) => !Removed(vs, r.volume))
    && d.devices == Filter(c.devices, (r: Ref) => !Removed(vs, r.volume))
  }

  lemma StripOnFields(vs: seq<Volume>, c: Container)
    ensures WithoutRemoved(vs, c, Strip(c, Doomed(vs)))
  {
    var names := Doomed(vs);
    DoomedIsRemoved(vs);
    DroppingIsFilter(c.mounts, names);
    DroppingIsFilter(c.devices, names);
    FilterSame(c.mounts, (r: Ref) => r.volume !in names, (r: Ref) => !Removed(vs, r.volume));
    FilterSame(c.devices, (r: Ref) => r.volume !in names, (r: Ref) => !Removed(vs, r.volume));
  }

  ghost predicate AllWithoutRemoved(vs: seq<Volume>, cs: seq<Container>, ds: seq<Container>) {
    |ds| == |cs| && forall i :: 0 <= i < |cs| ==> WithoutRemoved(vs, cs[i], ds[i])
  }

  /** What the snapshot records of a container: its references to removed volumes. */
  ghost predicate Records(vs: seq<Volume>, c: Container, init: bool, e: Entry) {
    && e.container == c.name && e.init == init
    && e.mounts == Filter(c.mounts, (r: Ref) => Removed(vs, r.volume))
    && e.devices == Filter(c.devices, (r: Ref) => Removed(vs, r.volume))
  }

  lemma EntryOnFields(vs: seq<Volume>, c: Container, init: bool)
    ensures Records(vs, c, init, EntryOf(c, init, Doomed(vs)))
  {
    var names := Doomed(vs);
    DoomedIsRemoved(vs);
    PickingIsFilter(c.mounts, names);
    PickingIsFilter(c.devices, names);
    FilterSame(c.mounts, (r: Ref) => r.volume in names, (r: Ref) => Removed(vs, r.volume));
    FilterSame(c.devices, (r: Ref) => r.volume in names, (r: Ref) => Removed(vs, r.volume));
  }

  /** `q` is `p` after admission: claims, ephemeral volumes and emptyDirs are gone
      and the other volumes are there in order; so are the references to them; the
      finalizer is there after the others; and a Pod without an annotation now has
      one with the volumes that are gone. */
  ghost predicate StrippedFrom(p: Pod, q: Pod) {
    && q.volumes == Filter(p.volumes, (v: Volume) => v.pvc.None? && !v.ephemeral && !v.emptyDir)
    && AllWithoutRemoved(p.volumes, p.containers, q.containers)
    && AllWithoutRemoved(p.volumes, p.inits, q.inits)
    && q.finalizers == (if "maroonedpods.io/sandbox-cleanup" in p.finalizers then p.finalizers
                        else p.finalizers + ["maroonedpods.io/sandbox-cleanup"])
    && q.deleting == p.deleting && q.rootfsVolume == p.rootfsVolume
    && (!p.note.Absent? ==> q.note == p.note)
    && (p.note.Absent? ==>
          && q.note.Holds?
          && q.note.snapshot.volumes == Filter(p.volumes, (v: Volume) => v.pvc.Some? || v.ephemeral || v.emptyDir))
  }

  lemma AdmitOnFields(p: Pod, size: Snapshot -> nat)
    requires !p.deleting && Admit(p, size).Admitted?
    ensures StrippedFrom(p, Admit(p, size).pod)
  {
    var q := Admit(p, size).pod;
    KeptIsFilter(p.volumes);
    TakenIsFilter(p.volumes);
    forall i | 0 <= i < |p.containers| ensures WithoutRemoved(p.volumes, p.containers[i], q.containers[i]) {
      StripOnFields(p.volumes, p.containers[i]);
    }
    forall i | 0 <= i < |p.inits| ensures WithoutRemoved(p.volumes, p.inits[i], q.inits[i]) {
      StripOnFields(p.volumes, p.inits[i]);
    }
  }

  /** A Pod is refused only for a snapshot of more than 256 KiB, and a Pod being
      deleted is left as it is. */
  lemma AdmitsExactly(p: Pod, size: Snapshot -> nat)
    ensures Admit(p, size).Admitted? <==> p.deleting || !p.note.Absent? || size(Capture(p)) <= 0x4_0000
    ensures p.deleting ==> Admit(p, size) == Admitted(p)
  {
  }
}
