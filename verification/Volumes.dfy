/** Stripping a Pod's workload volumes at admission and putting them back.

    The webhook takes PVC, ephemeral and emptyDir volumes (and every mount and
    device that refers to them) out of the Pod and keeps them in an annotation;
    later code restores them, sometimes more than once. */
module Volumes {
  import opened Options
  import opened Pods

  const SANDBOX_FINALIZER := "maroonedpods.io/sandbox-cleanup"
  const MAX_ANNOTATION_BYTES: nat := 256 * 1024

  // ---------------------------------------------------------------- capture

  /** isStrippedVolume, the test of the capture. */
  predicate IsStripped(v: Volume) {
    v.pvc.Some? || v.ephemeral || v.emptyDir
  }

  /** isWorkloadVolume, the test of the webhook. */
  predicate IsWorkload(v: Volume) {
    if v.pvc.Some? then true
    else if v.ephemeral then true
    else if v.emptyDir then true
    else false
  }

  lemma TestsAgree(v: Volume)
    ensures IsWorkload(v) <==> IsStripped(v)
  {
  }

  function Taken(vs: seq<Volume>): seq<Volume> {
    if vs == [] then []
    else Taken(vs[..|vs| - 1]) + if IsStripped(vs[|vs| - 1]) then [vs[|vs| - 1]] else []
  }

  function Kept(vs: seq<Volume>): seq<Volume> {
    if vs == [] then []
    else Kept(vs[..|vs| - 1]) + if IsWorkload(vs[|vs| - 1]) then [] else [vs[|vs| - 1]]
  }

  /** The names of the volumes to strip. */
  function Doomed(vs: seq<Volume>): set<string> {
    set v | v in vs && IsStripped(v) :: v.name
  }

  function EntryOf(c: Container, init: bool, names: set<string>): Entry {
    Entry(c.name, init, Picking(c.mounts, names), Picking(c.devices, names))
  }

  /** One entry per container that has something to take. */
  function Entries(cs: seq<Container>, init: bool, names: set<string>): seq<Entry> {
    if cs == [] then []
    else
      var e := EntryOf(cs[|cs| - 1], init, names);
      Entries(cs[..|cs| - 1], init, names) + if e.mounts == [] && e.devices == [] then [] else [e]
  }

  function Capture(p: Pod): Snapshot {
    var names := Doomed(p.volumes);
    Snapshot(Taken(p.volumes), Entries(p.containers, false, names) + Entries(p.inits, true, names))
  }

  // ---------------------------------------------------------------- strip

  function Strip(c: Container, names: set<string>): Container {
    c.(mounts := Dropping(c.mounts, names), devices := Dropping(c.devices, names))
  }

  function StripAll(cs: seq<Container>, names: set<string>): (r: seq<Container>)
    ensures |r| == |cs|
  {
    seq(|cs|, i requires 0 <= i < |cs| => Strip(cs[i], names))
  }

  datatype Result = Admitted(pod: Pod) | Rejected

  /** What admission makes of a Pod; `size` is the encoded size of a snapshot. */
  function Admit(p: Pod, size: Snapshot -> nat): Result {
    if p.deleting then Admitted(p)
    else if p.note.Absent? && size(Capture(p)) > MAX_ANNOTATION_BYTES then Rejected
    else
      var names := Doomed(p.volumes);
      Admitted(p.(finalizers := if SANDBOX_FINALIZER in p.finalizers then p.finalizers
                                else p.finalizers + [SANDBOX_FINALIZER],
                  note := if p.note.Absent? then Holds(Capture(p)) else p.note,
                  volumes := Kept(p.volumes),
                  containers := StripAll(p.containers, names),
                  inits := StripAll(p.inits, names)))
  }

  // ---------------------------------------------------------------- restore

  function Missing(vs: seq<Volume>, have: set<string>): seq<Volume> {
    if vs == [] then []
    else Missing(vs[..|vs| - 1], have) + if vs[|vs| - 1].name in have then [] else [vs[|vs| - 1]]
  }

  /** One entry put back into one container. */
  function PutBack(c: Container, e: Entry, init: bool): Container {
    if e.init != init || e.container != c.name then c
    else c.(mounts := c.mounts + Dropping(e.mounts, RefNames(c.mounts)),
            devices := c.devices + Dropping(e.devices, RefNames(c.devices)))
  }

  function PutBackAll(c: Container, es: seq<Entry>, init: bool): Container {
    if es == [] then c else PutBack(PutBackAll(c, es[..|es| - 1], init), es[|es| - 1], init)
  }

  function RestoreAll(cs: seq<Container>, es: seq<Entry>, init: bool): (r: seq<Container>)
    ensures |r| == |cs|
  {
    seq(|cs|, i requires 0 <= i < |cs| => PutBackAll(cs[i], es, init))
  }

  function Restore(p: Pod): Pod {
    if !p.note.Holds? then p
    else
      var snap := p.note.snapshot;
      p.(volumes := p.volumes + Missing(snap.volumes, VolumeNames(p.volumes)),
         containers := RestoreAll(p.containers, snap.entries, false),
         inits := RestoreAll(p.inits, snap.entries, true))
  }

  // ---------------------------------------------------------------- volumes survive

  lemma {:induction false} TakenByKind(vs: seq<Volume>)
    ensures forall v :: v in Kept(vs) ==> !IsStripped(v)
    ensures forall v :: v in Taken(vs) ==> IsStripped(v)
  {
    if vs != [] { TakenByKind(vs[..|vs| - 1]); }
  }

  lemma {:induction false} TakenOrKeptAll(vs: seq<Volume>)
    ensures multiset(Kept(vs)) + multiset(Taken(vs)) == multiset(vs)
  {
    if vs != [] {
      var init, v := vs[..|vs| - 1], vs[|vs| - 1];
      TakenOrKeptAll(init);
      assert vs == init + [v];
      OneMore(Kept(init), Taken(init), init, v);
    }
  }

  lemma {:induction false} TakenOrKept(vs: seq<Volume>)
    ensures multiset(Kept(vs)) + multiset(Taken(vs)) == multiset(vs)
    ensures forall v :: v in Kept(vs) ==> v in vs && v.pvc.None? && !v.ephemeral && !v.emptyDir
    ensures forall v :: v in Taken(vs) ==> v in vs && (v.pvc.Some? || v.ephemeral || v.emptyDir)
  {
    TakenByKind(vs);
    TakenOrKeptAll(vs);
    assert forall v :: v in Kept(vs) || v in Taken(vs) ==> v in multiset(vs);
  }

  lemma {:induction false} MissingAll(vs: seq<Volume>, have: set<string>)
    requires forall v :: v in vs ==> v.name !in have
    ensures Missing(vs, have) == vs
  {
    if vs != [] {
      var init, last := vs[..|vs| - 1], vs[|vs| - 1];
      assert vs == init + [last];
      MissingAll(init, have);
      assert last in vs;
      assert Missing(vs, have) == Missing(init, have) + [last];
    }
  }

  lemma {:induction false} MissingNone(vs: seq<Volume>, have: set<string>)
    requires forall v :: v in vs ==> v.name in have
    ensures Missing(vs, have) == []
  {
    if vs != [] {
      MissingNone(vs[..|vs| - 1], have);
      assert vs[|vs| - 1] in vs;
    }
  }

  lemma {:induction false} MissingIn(vs: seq<Volume>, have: set<string>)
    ensures forall v :: v in Missing(vs, have) <==> v in vs && v.name !in have
  {
    if vs != [] {
      MissingIn(vs[..|vs| - 1], have);
      assert vs == vs[..|vs| - 1] + [vs[|vs| - 1]];
    }
  }

  lemma {:induction false} NamesApart(vs: seq<Volume>, v: Volume)
    requires DistinctVolumes(vs) && v in Taken(vs)
    ensures v.name !in VolumeNames(Kept(vs))
  {
    TakenOrKept(vs);
    forall w | w in Kept(vs) ensures w.name != v.name {
      var i :| 0 <= i < |vs| && vs[i] == v;
      var j :| 0 <= j < |vs| && vs[j] == w;
    }
  }

  // ---------------------------------------------------------------- mounts survive

  lemma {:induction false} PutBackConcat(c: Container, xs: seq<Entry>, ys: seq<Entry>, init: bool)
    ensures PutBackAll(c, xs + ys, init) == PutBackAll(PutBackAll(c, xs, init), ys, init)
  {
    if ys == [] {
      assert xs + ys == xs;
    } else {
      assert (xs + ys)[..|xs + ys| - 1] == xs + ys[..|ys| - 1];
      PutBackConcat(c, xs, ys[..|ys| - 1], init);
    }
  }

  predicate Concerns(e: Entry, name: string, init: bool) {
    e.init == init && e.container == name
  }

  lemma {:induction false} PutBackKeepsName(c: Container, es: seq<Entry>, init: bool)
    ensures PutBackAll(c, es, init).name == c.name && PutBackAll(c, es, init).requests == c.requests
  {
    if es != [] { PutBackKeepsName(c, es[..|es| - 1], init); }
  }

  lemma {:induction false} PutBackNothing(c: Container, es: seq<Entry>, init: bool)
    requires forall e :: e in es ==> !Concerns(e, c.name, init)
    ensures PutBackAll(c, es, init) == c
  {
    if es != [] {
      PutBackNothing(c, es[..|es| - 1], init);
      assert es[|es| - 1] in es;
    }
  }

  lemma {:induction false} EntriesConcern(cs: seq<Container>, init: bool, names: set<string>)
    ensures forall e :: e in Entries(cs, init, names) ==>
              e.init == init && exists i :: 0 <= i < |cs| && e.container == cs[i].name
  {
    if cs != [] {
      var before := cs[..|cs| - 1];
      EntriesConcern(before, init, names);
      forall e | e in Entries(cs, init, names)
        ensures e.init == init && exists i :: 0 <= i < |cs| && e.container == cs[i].name
      {
        if e in Entries(before, init, names) {
          var i :| 0 <= i < |before| && e.container == before[i].name;
          assert e.container == cs[i].name;
        } else {
          assert e.container == cs[|cs| - 1].name;
        }
      }
    }
  }

  /** Putting back what was taken from `c` undoes the stripping, up to order. */
  ghost predicate SameRefs(c: Container, d: Container) {
    && c.name == d.name && c.requests == d.requests
    && multiset(c.mounts) == multiset(d.mounts)
    && multiset(c.devices) == multiset(d.devices)
  }

  lemma {:induction false} RefsReturn(rs: seq<Ref>, names: set<string>)
    ensures var kept, taken := Dropping(rs, names), Picking(rs, names);
            multiset(kept + Dropping(taken, RefNames(kept))) == multiset(rs)
  {
    PickOrDrop(rs, names);
    var kept, taken := Dropping(rs, names), Picking(rs, names);
    assert forall r :: r in kept ==> r.volume !in names;
    DropNothing(taken, RefNames(kept));
  }

  lemma OwnEntryReturns(c: Container, init: bool, names: set<string>)
    ensures SameRefs(PutBack(Strip(c, names), EntryOf(c, init, names), init), c)
    ensures var e := EntryOf(c, init, names);
            e.mounts == [] && e.devices == [] ==> SameRefs(Strip(c, names), c)
  {
    RefsReturn(c.mounts, names);
    RefsReturn(c.devices, names);
    PickOrDrop(c.mounts, names);
    PickOrDrop(c.devices, names);
  }

  /** Putting back the entries of one more container. */
  lemma {:induction false} PutBackSnoc(c: Container, cs: seq<Container>, last: Container, init: bool,
                                       names: set<string>)
    ensures var e := EntryOf(last, init, names);
            var base := PutBackAll(c, Entries(cs, init, names), init);
            PutBackAll(c, Entries(cs + [last], init, names), init) ==
            if e.mounts == [] && e.devices == [] then base else PutBack(base, e, init)
  {
    var es, es' := Entries(cs, init, names), Entries(cs + [last], init, names);
    assert (cs + [last])[..|cs|] == cs;
    var e := EntryOf(last, init, names);
    if !(e.mounts == [] && e.devices == []) {
      assert es' == es + [e] && es'[..|es'| - 1] == es;
    } else {
      assert es' == es;
    }
  }

  /** Entries of other containers leave this one alone. */
  lemma {:induction false} OthersEntriesPass(c: Container, cs: seq<Container>, init: bool, names: set<string>)
    requires forall k :: 0 <= k < |cs| ==> cs[k].name != c.name
    ensures PutBackAll(c, Entries(cs, init, names), init) == c
  {
    EntriesConcern(cs, init, names);
    forall e | e in Entries(cs, init, names) ensures !Concerns(e, c.name, init) {
      var k :| 0 <= k < |cs| && e.container == cs[k].name;
    }
    PutBackNothing(c, Entries(cs, init, names), init);
  }

  /** The entry of a later container of another name changes nothing. */
  lemma {:induction false} LaterEntryPasses(c: Container, before: seq<Container>, last: Container, init: bool,
                                            names: set<string>)
    requires c.name != last.name
    ensures PutBackAll(c, Entries(before + [last], init, names), init) == PutBackAll(c, Entries(before, init, names), init)
  {
    PutBackSnoc(c, before, last, init, names);
    PutBackKeepsName(c, Entries(before, init, names), init);
  }

  lemma {:induction false} LastContainerReturns(before: seq<Container>, last: Container, init: bool, names: set<string>)
    requires forall k :: 0 <= k < |before| ==> before[k].name != last.name
    ensures SameRefs(PutBackAll(Strip(last, names), Entries(before + [last], init, names), init), last)
  {
    PutBackSnoc(Strip(last, names), before, last, init, names);
    OthersEntriesPass(Strip(last, names), before, init, names);
    OwnEntryReturns(last, init, names);
  }

  lemma {:induction false} ContainerReturns(cs: seq<Container>, i: nat, init: bool, names: set<string>)
    requires DistinctContainers(cs) && i < |cs|
    ensures SameRefs(PutBackAll(Strip(cs[i], names), Entries(cs, init, names), init), cs[i])
  {
    var before, last := cs[..|cs| - 1], cs[|cs| - 1];
    assert cs == before + [last];
    if i < |before| {
      assert cs[i].name != cs[|cs| - 1].name;
      ContainerReturns(before, i, init, names);
      LaterEntryPasses(Strip(cs[i], names), before, last, init, names);
    } else {
      forall k | 0 <= k < |before| ensures before[k].name != last.name { assert cs[k].name != cs[|cs| - 1].name; }
      LastContainerReturns(before, last, init, names);
    }
  }

  lemma EntriesOfTheOtherKind(c: Container, cs: seq<Container>, init: bool, names: set<string>)
    ensures PutBackAll(c, Entries(cs, !init, names), init) == c
  {
    EntriesConcern(cs, !init, names);
    PutBackNothing(c, Entries(cs, !init, names), init);
  }

  // ---------------------------------------------------------------- the round trip

  ghost predicate SameContainers(cs: seq<Container>, ds: seq<Container>) {
    |cs| == |ds| && forall i :: 0 <= i < |cs| ==> SameRefs(cs[i], ds[i])
  }

  /** The same volumes and, per container, the same mounts and devices. */
  ghost predicate SameWorkload(p: Pod, q: Pod) {
    && multiset(p.volumes) == multiset(q.volumes)
    && SameContainers(p.containers, q.containers)
    && SameContainers(p.inits, q.inits)
  }

  lemma VolumesReturn(p: Pod)
    requires DistinctVolumes(p.volumes)
    ensures multiset(Kept(p.volumes) + Missing(Taken(p.volumes), VolumeNames(Kept(p.volumes)))) == multiset(p.volumes)
  {
    forall v | v in Taken(p.volumes) ensures v.name !in VolumeNames(Kept(p.volumes)) {
      NamesApart(p.volumes, v);
    }
    MissingAll(Taken(p.volumes), VolumeNames(Kept(p.volumes)));
    TakenOrKept(p.volumes);
  }

  lemma AppContainersReturn(p: Pod)
    requires DistinctContainers(p.containers)
    ensures var names := Doomed(p.volumes);
            SameContainers(RestoreAll(StripAll(p.containers, names), Capture(p).entries, false), p.containers)
  {
    var names := Doomed(p.volumes);
    forall i | 0 <= i < |p.containers|
      ensures SameRefs(PutBackAll(Strip(p.containers[i], names), Capture(p).entries, false), p.containers[i])
    {
      var c := Strip(p.containers[i], names);
      ContainerReturns(p.containers, i, false, names);
      PutBackConcat(c, Entries(p.containers, false, names), Entries(p.inits, true, names), false);
      EntriesOfTheOtherKind(PutBackAll(c, Entries(p.containers, false, names), false), p.inits, false, names);
    }
  }

  lemma InitContainersReturn(p: Pod)
    requires DistinctContainers(p.inits)
    ensures var names := Doomed(p.volumes);
            SameContainers(RestoreAll(StripAll(p.inits, names), Capture(p).entries, true), p.inits)
  {
    var names := Doomed(p.volumes);
    forall i | 0 <= i < |p.inits|
      ensures SameRefs(PutBackAll(Strip(p.inits[i], names), Capture(p).entries, true), p.inits[i])
    {
      var c := Strip(p.inits[i], names);
      PutBackConcat(c, Entries(p.containers, false, names), Entries(p.inits, true, names), true);
      EntriesOfTheOtherKind(c, p.containers, true, names);
      ContainerReturns(p.inits, i, true, names);
    }
  }

  ghost predicate Validated(p: Pod) {
    DistinctVolumes(p.volumes) && DistinctContainers(p.containers) && DistinctContainers(p.inits)
  }

  /** Admission then restoration gives the workload back, up to order. */
  lemma AdmitThenRestore(p: Pod, size: Snapshot -> nat)
    requires Validated(p) && p.note.Absent? && Admit(p, size).Admitted?
    ensures SameWorkload(Restore(Admit(p, size).pod), p)
  {
    if !p.deleting {
      VolumesReturn(p);
      AppContainersReturn(p);
      InitContainersReturn(p);
    }
  }

  lemma StripNothing(cs: seq<Container>)
    ensures StripAll(cs, {}) == cs
  {
    forall i | 0 <= i < |cs| ensures Strip(cs[i], {}) == cs[i] {
      DropNothing(cs[i].mounts, {});
      DropNothing(cs[i].devices, {});
    }
  }

  lemma {:induction false} KeptAgain(vs: seq<Volume>)
    requires forall v :: v in vs ==> !IsStripped(v)
    ensures Kept(vs) == vs && Doomed(vs) == {}
  {
    if vs != [] {
      KeptAgain(vs[..|vs| - 1]);
      assert vs[|vs| - 1] in vs && vs == vs[..|vs| - 1] + [vs[|vs| - 1]];
    }
  }

  lemma {:induction false} KeepEverything(vs: seq<Volume>)
    requires Doomed(vs) == {}
    ensures Kept(vs) == vs
  {
    forall v | v in vs ensures !IsStripped(v) {
      assert IsStripped(v) ==> v.name in Doomed(vs);
    }
    KeptAgain(vs);
  }

  // ---------------------------------------------------------------- restoring again

  /** Every name of `e` is already there. */
  predicate Saturated(c: Container, e: Entry, init: bool) {
    Concerns(e, c.name, init) ==>
      && (forall r :: r in e.mounts ==> r.volume in RefNames(c.mounts))
      && (forall r :: r in e.devices ==> r.volume in RefNames(c.devices))
  }

  lemma SaturatedStays(c: Container, e: Entry, init: bool)
    requires Saturated(c, e, init)
    ensures PutBack(c, e, init) == c
  {
    if Concerns(e, c.name, init) {
      DropEverything(e.mounts, RefNames(c.mounts));
      DropEverything(e.devices, RefNames(c.devices));
    }
  }

  /** Putting an entry back saturates it and keeps what is saturated. */
  lemma PutBackSaturates(c: Container, e: Entry, init: bool)
    ensures Saturated(PutBack(c, e, init), e, init)
    ensures forall f :: Saturated(c, f, init) ==> Saturated(PutBack(c, e, init), f, init)
  {
    PickOrDrop(e.mounts, RefNames(c.mounts));
    PickOrDrop(e.devices, RefNames(c.devices));
    var d := PutBack(c, e, init);
    assert forall r :: r in c.mounts ==> r in d.mounts;
    assert forall r :: r in c.devices ==> r in d.devices;
  }

  lemma {:induction false} PutBackAllSaturates(c: Container, es: seq<Entry>, init: bool)
    ensures forall e :: e in es ==> Saturated(PutBackAll(c, es, init), e, init)
  {
    if es != [] {
      var before, last := es[..|es| - 1], es[|es| - 1];
      PutBackAllSaturates(c, before, init);
      PutBackSaturates(PutBackAll(c, before, init), last, init);
      assert es == before + [last];
    }
  }

  lemma {:induction false} SaturatedStaysAll(c: Container, es: seq<Entry>, init: bool)
    requires forall e :: e in es ==> Saturated(c, e, init)
    ensures PutBackAll(c, es, init) == c
  {
    if es != [] {
      SaturatedStaysAll(c, es[..|es| - 1], init);
      assert es[|es| - 1] in es;
      SaturatedStays(c, es[|es| - 1], init);
    }
  }

  lemma RestoreAllTwice(cs: seq<Container>, es: seq<Entry>, init: bool)
    ensures RestoreAll(RestoreAll(cs, es, init), es, init) == RestoreAll(cs, es, init)
  {
    forall i | 0 <= i < |cs|
      ensures PutBackAll(PutBackAll(cs[i], es, init), es, init) == PutBackAll(cs[i], es, init)
    {
      PutBackAllSaturates(cs[i], es, init);
      SaturatedStaysAll(PutBackAll(cs[i], es, init), es, init);
    }
  }

  /** Restoration is idempotent for every Pod and every snapshot. */
  lemma RestoreTwice(p: Pod)
    ensures Restore(Restore(p)) == Restore(p)
  {
    if p.note.Holds? {
      var snap := p.note.snapshot;
      var q := Restore(p);
      MissingIn(snap.volumes, VolumeNames(p.volumes));
      forall v | v in snap.volumes ensures v.name in VolumeNames(q.volumes) {
        if v.name in VolumeNames(p.volumes) {
          var w :| w in p.volumes && w.name == v.name;
          assert w in q.volumes;
        } else {
          assert v in q.volumes;
        }
      }
      MissingNone(snap.volumes, VolumeNames(q.volumes));
      assert q.volumes + [] == q.volumes;
      RestoreAllTwice(p.containers, snap.entries, false);
      RestoreAllTwice(p.inits, snap.entries, true);
    }
  }

  /** Re-admission (the webhook sees every update) changes nothing more. */
  lemma AdmitTwice(p: Pod, size: Snapshot -> nat)
    requires Admit(p, size).Admitted?
    ensures Admit(Admit(p, size).pod, size) == Admit(p, size)
  {
    if !p.deleting {
      var q := Admit(p, size).pod;
      TakenOrKept(p.volumes);
      KeptAgain(Kept(p.volumes));
      StripNothing(q.containers);
      StripNothing(q.inits);
    }
  }
}
