/** The webhook's and the restorer's loops, working in place on a Pod object.

    Each is proved against the functions of module `Volumes`, about which the
    round trip and idempotence are proved. */
module Admission {
  import opened Options
  import opened Sequences
  import opened Pods
  import opened Volumes
  import opened AdmittedPods

  lemma DoomedSnoc(vs: seq<Volume>, v: Volume)
    ensures Doomed(vs + [v]) == Doomed(vs) + if IsStripped(v) then {v.name} else {}
  {
  }

  /** filterVolumes: the volumes kept, and the names of those dropped. */
  method FilterVolumes(volumes: seq<Volume>) returns (kept: seq<Volume>, dropped: set<string>)
    ensures kept == Kept(volumes) && dropped == Doomed(volumes)
    ensures kept == Filter(volumes, (v: Volume) => v.pvc.None? && !v.ephemeral && !v.emptyDir)
    ensures forall n :: n in dropped <==> Removed(volumes, n)
  {
    KeptIsFilter(volumes);
    kept, dropped := [], {};
    for i := 0 to |volumes|
      invariant kept == Kept(volumes[..i]) && dropped == Doomed(volumes[..i])
    {
      assert volumes[..i + 1][..i] == volumes[..i];
      assert volumes[..i + 1] == volumes[..i] + [volumes[i]];
      DoomedSnoc(volumes[..i], volumes[i]);
      TestsAgree(volumes[i]);
      if IsWorkload(volumes[i]) {
        dropped := dropped + {volumes[i].name};
      } else {
        kept := kept + [volumes[i]];
      }
    }
    assert volumes[..|volumes|] == volumes;
  }

  /** filterVolumeMounts and filterVolumeDevices. */
  method FilterRefs(refs: seq<Ref>, dropped: set<string>) returns (kept: seq<Ref>)
    ensures kept == Dropping(refs, dropped)
  {
    kept := [];
    for i := 0 to |refs|
      invariant kept == Dropping(refs[..i], dropped)
    {
      assert refs[..i + 1][..i] == refs[..i];
      if refs[i].volume !in dropped { kept := kept + [refs[i]]; }
    }
    assert refs[..|refs|] == refs;
  }

  /** captureContainerMounts: what the container has of the dropped volumes. */
  method CaptureContainer(c: Container, init: bool, dropped: set<string>) returns (e: Option<Entry>)
    ensures var all := EntryOf(c, init, dropped);
            e == if all.mounts == [] && all.devices == [] then None else Some(all)
  {
    var mounts, devices := [], [];
    for i := 0 to |c.mounts|
      invariant mounts == Picking(c.mounts[..i], dropped)
    {
      assert c.mounts[..i + 1][..i] == c.mounts[..i];
      if c.mounts[i].volume in dropped { mounts := mounts + [c.mounts[i]]; }
    }
    for i := 0 to |c.devices|
      invariant devices == Picking(c.devices[..i], dropped)
    {
      assert c.devices[..i + 1][..i] == c.devices[..i];
      if c.devices[i].volume in dropped { devices := devices + [c.devices[i]]; }
    }
    assert c.mounts[..|c.mounts|] == c.mounts && c.devices[..|c.devices|] == c.devices;
    e := if mounts == [] && devices == [] then None else Some(Entry(c.name, init, mounts, devices));
  }

  method CaptureContainers(cs: seq<Container>, init: bool, dropped: set<string>) returns (es: seq<Entry>)
    ensures es == Entries(cs, init, dropped)
  {
    es := [];
    for i := 0 to |cs|
      invariant es == Entries(cs[..i], init, dropped)
    {
      assert cs[..i + 1][..i] == cs[..i];
      var e := CaptureContainer(cs[i], init, dropped);
      if e.Some? { es := es + [e.value]; }
    }
    assert cs[..|cs|] == cs;
  }

  class PodObject {
    var deleting: bool
    var finalizers: seq<string>
    var note: Note
    var rootfsVolume: string
    var volumes: seq<Volume>
    var containers: seq<Container>
    var inits: seq<Container>

    function Value(): Pod
      reads this
    {
      Pod(deleting, finalizers, note, rootfsVolume, volumes, containers, inits)
    }

    /** DeepCopy. */
    constructor (p: Pod)
      ensures Value() == p
    {
      deleting, finalizers, note, rootfsVolume := p.deleting, p.finalizers, p.note, p.rootfsVolume;
      volumes, containers, inits := p.volumes, p.containers, p.inits;
    }

    /** CaptureStrippedVolumes. */
    method CaptureStripped() returns (snap: Snapshot)
      ensures snap == Capture(Value())
    {
      var dropped: set<string>, taken := {}, [];
      for i := 0 to |volumes|
        invariant dropped == Doomed(volumes[..i]) && taken == Taken(volumes[..i])
      {
        assert volumes[..i + 1][..i] == volumes[..i];
        assert volumes[..i + 1] == volumes[..i] + [volumes[i]];
        DoomedSnoc(volumes[..i], volumes[i]);
        if IsStripped(volumes[i]) {
          dropped, taken := dropped + {volumes[i].name}, taken + [volumes[i]];
        }
      }
      assert volumes[..|volumes|] == volumes;
      var apps := CaptureContainers(containers, false, dropped);
      var ins := CaptureContainers(inits, true, dropped);
      snap := Snapshot(taken, apps + ins);
    }

    /** MutateSandboxPod.  A rejected Pod keeps the finalizer it was given. */
    method Mutate(size: Snapshot -> nat) returns (ok: bool)
      modifies this
      ensures ok == Admit(old(Value()), size).Admitted?
      ensures ok ==> Value() == Admit(old(Value()), size).pod
      ensures ok <==> deleting || !old(note).Absent? || size(Capture(old(Value()))) <= 0x4_0000
      ensures !ok ==> Value() == old(Value()).(finalizers := finalizers) && SANDBOX_FINALIZER in finalizers
    {
      AdmitsExactly(Value(), size);
      ok := true;
      if deleting { return; }
      if SANDBOX_FINALIZER !in finalizers { finalizers := finalizers + [SANDBOX_FINALIZER]; }
      if note.Absent? {
        var snap := CaptureStripped();
        if size(snap) > MAX_ANNOTATION_BYTES { return false; }
        note := Holds(snap);
      }
      var kept, dropped := FilterVolumes(volumes);
      volumes := kept;
      containers := DropVolumeRefs(containers, dropped);
      inits := DropVolumeRefs(inits, dropped);
    }

    /** The two loops of MutateSandboxPod over the containers. */
    static method DropVolumeRefs(cs: seq<Container>, dropped: set<string>) returns (out: seq<Container>)
      ensures out == StripAll(cs, dropped)
    {
      out := cs;
      for i := 0 to |cs|
        invariant |out| == |cs|
        invariant forall k :: 0 <= k < |cs| ==> out[k] == if k < i then Strip(cs[k], dropped) else cs[k]
      {
        var mounts := FilterRefs(out[i].mounts, dropped);
        var devices := FilterRefs(out[i].devices, dropped);
        out := out[i := out[i].(mounts := mounts, devices := devices)];
      }
    }

    /** restoreMounts: one entry put back into a list of containers. */
    static method RestoreMounts(cs: seq<Container>, e: Entry) returns (out: seq<Container>)
      ensures |out| == |cs| && forall k :: 0 <= k < |cs| ==> out[k] == PutBack(cs[k], e, e.init)
    {
      out := cs;
      for i := 0 to |cs|
        invariant |out| == |cs|
        invariant forall k :: 0 <= k < |cs| ==> out[k] == if k < i then PutBack(cs[k], e, e.init) else cs[k]
      {
        if out[i].name == e.container {
          var have := RefNames(out[i].mounts);
          var mounts := FilterRefs(e.mounts, have);
          var haveDev := RefNames(out[i].devices);
          var devices := FilterRefs(e.devices, haveDev);
          out := out[i := out[i].(mounts := out[i].mounts + mounts, devices := out[i].devices + devices)];
        }
      }
    }

    static method MissingVolumes(vs: seq<Volume>, have: set<string>) returns (out: seq<Volume>)
      ensures out == Missing(vs, have)
    {
      out := [];
      for i := 0 to |vs|
        invariant out == Missing(vs[..i], have)
      {
        assert vs[..i + 1][..i] == vs[..i];
        if vs[i].name !in have { out := out + [vs[i]]; }
      }
      assert vs[..|vs|] == vs;
    }

    static method RestoreEntries(containers: seq<Container>, inits: seq<Container>, es: seq<Entry>)
      returns (cs: seq<Container>, ins: seq<Container>)
      ensures cs == RestoreAll(containers, es, false) && ins == RestoreAll(inits, es, true)
    {
      cs, ins := containers, inits;
      for i := 0 to |es|
        invariant cs == RestoreAll(containers, es[..i], false)
        invariant ins == RestoreAll(inits, es[..i], true)
      {
        assert es[..i + 1][..i] == es[..i] && es[..i + 1][i] == es[i];
        if es[i].init {
          ins := RestoreMounts(ins, es[i]);
        } else {
          cs := RestoreMounts(cs, es[i]);
        }
      }
      assert es[..|es|] == es;
    }

    /** RestoreVolumes: a copy with the snapshot put back. */
    method RestoreVolumes() returns (out: PodObject)
      ensures fresh(out) && out.Value() == Restore(Value())
    {
      out := new PodObject(Value());
      if !note.Holds? { return; }
      var more := MissingVolumes(note.snapshot.volumes, VolumeNames(volumes));
      out.volumes := out.volumes + more;
      var cs, ins := RestoreEntries(containers, inits, note.snapshot.entries);
      out.containers, out.inits := cs, ins;
    }
  }
}
