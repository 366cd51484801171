/** The parts of a Pod that the sandbox code reads and writes. */
module Pods {
  import opened Options

  datatype Claim = Claim(claimName: string, readOnly: bool)

  /** A volume; each source field is set or not, as in the Kubernetes type. */
  datatype Volume = Volume(name: string, pvc: Option<Claim>, ephemeral: bool, emptyDir: bool, files: bool)

  /** A volume mount or a volume device of a container: the volume's name, the
      mount or device path, and the read-only flag (false for a device). */
  datatype Ref = Ref(volume: string, path: string, readOnly: bool)

  datatype Request = Request(resource: string, amount: int)

  datatype Container = Container(name: string, mounts: seq<Ref>, devices: seq<Ref>, requests: seq<Request>)

  /** The mounts and devices taken from one container. */
  datatype Entry = Entry(container: string, init: bool, mounts: seq<Ref>, devices: seq<Ref>)

  datatype Snapshot = Snapshot(volumes: seq<Volume>, entries: seq<Entry>)

  /** The volumes annotation: no such key, the empty string, text that does not
      decode, or an encoded snapshot. */
  datatype Note = Absent | Blank | Garbled | Holds(snapshot: Snapshot)

  datatype Pod = Pod(
    deleting: bool,
    finalizers: seq<string>,
    note: Note,
    rootfsVolume: string,      // the trimmed rootfs-volume annotation, "" if none
    volumes: seq<Volume>,
    containers: seq<Container>,
    inits: seq<Container>)

  ghost predicate DistinctVolumes(vs: seq<Volume>) {
    forall i, j :: 0 <= i < j < |vs| ==> vs[i].name != vs[j].name
  }

  ghost predicate DistinctContainers(cs: seq<Container>) {
    forall i, j :: 0 <= i < j < |cs| ==> cs[i].name != cs[j].name
  }

  function VolumeNames(vs: seq<Volume>): set<string> {
    set v | v in vs :: v.name
  }

  function RefNames(rs: seq<Ref>): set<string> {
    set r | r in rs :: r.volume
  }

  /** The references to volumes outside `names`, in order. */
  function Dropping(rs: seq<Ref>, names: set<string>): (kept: seq<Ref>) {
    if rs == [] then []
    else Dropping(rs[..|rs| - 1], names) + if rs[|rs| - 1].volume in names then [] else [rs[|rs| - 1]]
  }

  /** The references to volumes in `names`, in order. */
  function Picking(rs: seq<Ref>, names: set<string>): (taken: seq<Ref>) {
    if rs == [] then []
    else Picking(rs[..|rs| - 1], names) + if rs[|rs| - 1].volume in names then [rs[|rs| - 1]] else []
  }

  lemma {:induction false} PickedByName(rs: seq<Ref>, names: set<string>)
    ensures forall r :: r in Dropping(rs, names) ==> r.volume !in names
    ensures forall r :: r in Picking(rs, names) ==> r.volume in names
  {
    if rs != [] { PickedByName(rs[..|rs| - 1], names); }
  }

  /** One more element, on either side of a partition. */
  lemma OneMore<T>(xs: seq<T>, ys: seq<T>, all: seq<T>, v: T)
    requires multiset(xs) + multiset(ys) == multiset(all)
    ensures multiset(xs + [v]) + multiset(ys + []) == multiset(all + [v])
    ensures multiset(xs + []) + multiset(ys + [v]) == multiset(all + [v])
  {
    assert xs + [] == xs && ys + [] == ys;
    assert multiset(xs + [v]) == multiset(xs) + multiset{v};
    assert multiset(ys + [v]) == multiset(ys) + multiset{v};
    assert multiset(all + [v]) == multiset(all) + multiset{v};
  }

  lemma {:induction false} PickOrDropAll(rs: seq<Ref>, names: set<string>)
    ensures multiset(Dropping(rs, names)) + multiset(Picking(rs, names)) == multiset(rs)
  {
    if rs != [] {
      var init, r := rs[..|rs| - 1], rs[|rs| - 1];
      PickOrDropAll(init, names);
      assert rs == init + [r];
      OneMore(Dropping(init, names), Picking(init, names), init, r);
    }
  }

  /** Every reference is kept or taken, by its volume's name. */
  lemma {:induction false} PickOrDrop(rs: seq<Ref>, names: set<string>)
    ensures multiset(Dropping(rs, names)) + multiset(Picking(rs, names)) == multiset(rs)
    ensures forall r :: r in Dropping(rs, names) ==> r in rs && r.volume !in names
    ensures forall r :: r in Picking(rs, names) ==> r in rs && r.volume in names
    ensures forall r :: r in rs ==> r in Dropping(rs, names) || r in Picking(rs, names)
  {
    PickedByName(rs, names);
    PickOrDropAll(rs, names);
    assert forall r :: r in rs ==> r in multiset(Dropping(rs, names)) + multiset(Picking(rs, names));
    assert forall r :: r in Dropping(rs, names) || r in Picking(rs, names) ==> r in multiset(rs);
  }

  lemma {:induction false} DropNothing(rs: seq<Ref>, names: set<string>)
    requires forall r :: r in rs ==> r.volume !in names
    ensures Dropping(rs, names) == rs
  {
    if rs != [] {
      DropNothing(rs[..|rs| - 1], names);
      assert rs[|rs| - 1] in rs && rs == rs[..|rs| - 1] + [rs[|rs| - 1]];
    }
  }

  lemma {:induction false} DropEverything(rs: seq<Ref>, names: set<string>)
    requires forall r :: r in rs ==> r.volume in names
    ensures Dropping(rs, names) == []
  {
    if rs != [] {
      DropEverything(rs[..|rs| - 1], names);
      assert rs[|rs| - 1] in rs;
    }
  }
}
