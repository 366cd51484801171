/** When restoration gives back what admission took.

    Admission strips whether or not it takes a snapshot.  A Pod whose annotation
    is already there keeps that annotation, and restoration works from it,
    whatever it says.  This module proves for which annotations the Pod still
    gets its workload back. */
module RoundTripVolumes {
  import opened Options
  import opened Pods
  import opened Volumes

  // ---------------------------------------------------------------- what is put back

  /** The references that a row of lists adds to `have`: each list adds those
      whose volume is not mentioned yet. */
  function Added(have: seq<Ref>, lists: seq<seq<Ref>>): seq<Ref> {
    if lists == [] then []
    else
      var before := Added(have, lists[..|lists| - 1]);
      before + Dropping(lists[|lists| - 1], RefNames(have + before))
  }

  /** The entries' mounts for one container. */
  function MountLists(es: seq<Entry>, name: string, init: bool): seq<seq<Ref>> {
    if es == [] then []
    else
      MountLists(es[..|es| - 1], name, init)
      + if Concerns(es[|es| - 1], name, init) then [es[|es| - 1].mounts] else []
  }

  /** The entries' devices for one container. */
  function DeviceLists(es: seq<Entry>, name: string, init: bool): seq<seq<Ref>> {
    if es == [] then []
    else
      DeviceLists(es[..|es| - 1], name, init)
      + if Concerns(es[|es| - 1], name, init) then [es[|es| - 1].devices] else []
  }

  lemma {:induction false} AddedSnoc(have: seq<Ref>, lists: seq<seq<Ref>>, last: seq<Ref>)
    ensures var before := Added(have, lists);
            have + Added(have, lists + [last]) == (have + before) + Dropping(last, RefNames(have + before))
  {
    assert (lists + [last])[..|lists|] == lists;
  }

  lemma {:induction false} PutBackAdds(c: Container, es: seq<Entry>, init: bool)
    ensures PutBackAll(c, es, init) ==
            c.(mounts := c.mounts + Added(c.mounts, MountLists(es, c.name, init)),
               devices := c.devices + Added(c.devices, DeviceLists(es, c.name, init)))
  {
    if es == [] {
      assert c.mounts + [] == c.mounts && c.devices + [] == c.devices;
    } else {
      var before, last := es[..|es| - 1], es[|es| - 1];
      PutBackAdds(c, before, init);
      if Concerns(last, c.name, init) {
        AddedSnoc(c.mounts, MountLists(before, c.name, init), last.mounts);
        AddedSnoc(c.devices, DeviceLists(before, c.name, init), last.devices);
      } else {
        assert MountLists(es, c.name, init) == MountLists(before, c.name, init);
        assert DeviceLists(es, c.name, init) == DeviceLists(before, c.name, init);
      }
    }
  }

  // ---------------------------------------------------------------- exactly when

  lemma Cancel<T>(a: multiset<T>, b: multiset<T>, c: multiset<T>)
    ensures a + b == a + c <==> b == c
  {
    if a + b == a + c {
      forall x ensures b[x] == c[x] { assert (a + b)[x] == (a + c)[x]; }
    }
  }

  /** What is added is what was taken. */
  ghost predicate RefsBack(rs: seq<Ref>, lists: seq<seq<Ref>>, names: set<string>) {
    multiset(Added(Dropping(rs, names), lists)) == multiset(Picking(rs, names))
  }

  lemma {:induction false} RefsBackExactly(rs: seq<Ref>, lists: seq<seq<Ref>>, names: set<string>)
    ensures multiset(Dropping(rs, names) + Added(Dropping(rs, names), lists)) == multiset(rs) <==>
            RefsBack(rs, lists, names)
  {
    var kept, added := Dropping(rs, names), Added(Dropping(rs, names), lists);
    PickOrDropAll(rs, names);
    assert multiset(kept + added) == multiset(kept) + multiset(added);
    Cancel(multiset(kept), multiset(added), multiset(Picking(rs, names)));
  }

  ghost predicate ContainerBack(c: Container, es: seq<Entry>, init: bool, names: set<string>) {
    && RefsBack(c.mounts, MountLists(es, c.name, init), names)
    && RefsBack(c.devices, DeviceLists(es, c.name, init), names)
  }

  lemma {:induction false} ContainerBackExactly(c: Container, es: seq<Entry>, init: bool, names: set<string>)
    ensures SameRefs(PutBackAll(Strip(c, names), es, init), c) <==> ContainerBack(c, es, init, names)
  {
    PutBackAdds(Strip(c, names), es, init);
    RefsBackExactly(c.mounts, MountLists(es, c.name, init), names);
    RefsBackExactly(c.devices, DeviceLists(es, c.name, init), names);
  }

  ghost predicate ContainersBack(cs: seq<Container>, es: seq<Entry>, init: bool, names: set<string>) {
    forall i :: 0 <= i < |cs| ==> ContainerBack(cs[i], es, init, names)
  }

  lemma ContainersBackExactly(cs: seq<Container>, es: seq<Entry>, init: bool, names: set<string>)
    ensures SameContainers(RestoreAll(StripAll(cs, names), es, init), cs) <==> ContainersBack(cs, es, init, names)
  {
    var out := RestoreAll(StripAll(cs, names), es, init);
    forall i | 0 <= i < |cs| ensures SameRefs(out[i], cs[i]) <==> ContainerBack(cs[i], es, init, names) {
      ContainerBackExactly(cs[i], es, init, names);
    }
  }

  /** The volumes that are missing are those that were taken. */
  ghost predicate VolumesBack(left: seq<Volume>, taken: seq<Volume>, snap: Snapshot) {
    multiset(Missing(snap.volumes, VolumeNames(left))) == multiset(taken)
  }

  lemma {:induction false} VolumesBackExactly(vs: seq<Volume>, snap: Snapshot)
    ensures multiset(Kept(vs) + Missing(snap.volumes, VolumeNames(Kept(vs)))) == multiset(vs) <==>
            VolumesBack(Kept(vs), Taken(vs), snap)
  {
    TakenOrKeptAll(vs);
    Cancel(multiset(Kept(vs)), multiset(Missing(snap.volumes, VolumeNames(Kept(vs)))), multiset(Taken(vs)));
  }

  /** The snapshot adds to the stripped Pod exactly what was stripped from it; to
      a Pod being deleted, which is not stripped, nothing. */
  ghost predicate GivesBack(p: Pod, snap: Snapshot) {
    var names := if p.deleting then {} else Doomed(p.volumes);
    && (if p.deleting then VolumesBack(p.volumes, [], snap) else VolumesBack(Kept(p.volumes), Taken(p.volumes), snap))
    && ContainersBack(p.containers, snap.entries, false, names)
    && ContainersBack(p.inits, snap.entries, true, names)
  }

  lemma StrippedComesBackExactly(p: Pod, snap: Snapshot, size: Snapshot -> nat)
    requires !p.deleting && p.note == Holds(snap)
    ensures SameWorkload(Restore(Admit(p, size).pod), p) <==> GivesBack(p, snap)
  {
    var names := Doomed(p.volumes);
    VolumesBackExactly(p.volumes, snap);
    ContainersBackExactly(p.containers, snap.entries, false, names);
    ContainersBackExactly(p.inits, snap.entries, true, names);
  }

  lemma DeletingComesBackExactly(p: Pod, snap: Snapshot, size: Snapshot -> nat)
    requires p.deleting && p.note == Holds(snap)
    ensures SameWorkload(Restore(Admit(p, size).pod), p) <==> GivesBack(p, snap)
  {
    StripNothing(p.containers);
    StripNothing(p.inits);
    ContainersBackExactly(p.containers, snap.entries, false, {});
    ContainersBackExactly(p.inits, snap.entries, true, {});
    var missing := Missing(snap.volumes, VolumeNames(p.volumes));
    assert multiset(p.volumes + missing) == multiset(p.volumes) + multiset(missing);
    Cancel(multiset(p.volumes), multiset(missing), multiset{});
    assert multiset(p.volumes) + multiset{} == multiset(p.volumes);
  }

  lemma NothingToStrip(p: Pod, size: Snapshot -> nat)
    requires !p.deleting && !p.note.Absent? && !p.note.Holds? && Doomed(p.volumes) == {}
    ensures SameWorkload(Restore(Admit(p, size).pod), p)
  {
    KeepEverything(p.volumes);
    StripNothing(p.containers);
    StripNothing(p.inits);
  }

  lemma StrippedForGood(p: Pod, size: Snapshot -> nat)
    requires !p.deleting && !p.note.Absent? && !p.note.Holds? && Doomed(p.volumes) != {}
    ensures !SameWorkload(Restore(Admit(p, size).pod), p)
  {
    TakenOrKept(p.volumes);
    var n :| n in Doomed(p.volumes);
    var v :| v in p.volumes && IsStripped(v) && v.name == n;
    assert v in multiset(p.volumes) && v !in multiset(Kept(p.volumes));
  }

  /** Admission then restoration gives the workload back exactly when the
      annotation was absent; or it held a snapshot that adds what was stripped;
      or it was unreadable and nothing was stripped. */
  lemma RoundTripExactly(p: Pod, size: Snapshot -> nat)
    requires Validated(p) && Admit(p, size).Admitted?
    ensures SameWorkload(Restore(Admit(p, size).pod), p) <==>
            match p.note
            case Absent => true
            case Holds(snap) => GivesBack(p, snap)
            case _ => p.deleting || Doomed(p.volumes) == {}
  {
    match p.note
    case Absent => AdmitThenRestore(p, size);
    case Holds(snap) =>
      if p.deleting { DeletingComesBackExactly(p, snap, size); } else { StrippedComesBackExactly(p, snap, size); }
    case _ =>
      if !p.deleting {
        if Doomed(p.volumes) == {} { NothingToStrip(p, size); } else { StrippedForGood(p, size); }
      }
  }

  /** A Pod with one claim and an empty snapshot already in its annotation loses
      the claim. */
  lemma EmptySnapshotLosesVolume(size: Snapshot -> nat, claim: Claim)
    ensures var v := Volume("data", Some(claim), false, false, false);
            var p := Pod(false, [], Holds(Snapshot([], [])), "", [v], [], []);
            && Validated(p) && Admit(p, size).Admitted?
            && Restore(Admit(p, size).pod).volumes == [] && !SameWorkload(Restore(Admit(p, size).pod), p)
  {
    var v := Volume("data", Some(claim), false, false, false);
    assert [v][..0] == [] && Kept([v]) == [];
    assert v in multiset([v]);
  }
}
