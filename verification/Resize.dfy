/** The adaptor's create-or-resize loop.

    A VMI whose user-rootfs disk is too small for the size annotated on the Pod
    is deleted and created anew by a later reconcile.  This module proves that
    the adaptor does not do so without cause: over every run the number of such
    deletes is at most the number of times the annotation grew. */
module Resize {
  import opened Words
  import opened Options
  import opened Pods
  import opened Translate
  import opened Capacity

  /** The capacity of the first user-rootfs emptyDisk. */
  function FindEmptyDisk(vs: seq<VmVolume>): Option<int> {
    if vs == [] then None
    else if vs[0].name == USER_ROOTFS && vs[0].source.EmptyDisk? then Some(vs[0].source.capacity)
    else FindEmptyDisk(vs[1..])
  }

  /** emptyDiskTooSmall. */
  predicate TooSmall(vs: seq<VmVolume>, p: Pod, imageBytes: Int64)
    requires WorkloadCount(p) <= MAX_WORKLOADS
  {
    && imageBytes > 0
    && UserRootfsClaim(p).None?
    && FindEmptyDisk(vs).Some?
    && FindEmptyDisk(vs).value < CapacityN(imageBytes, WorkloadCount(p))
  }

  /** The volumes of a VMI built for `bytes`. */
  function BuiltFor(input: Input, bytes: Int64): seq<VmVolume>
    requires WorkloadCount(input.pod) <= MAX_WORKLOADS
  {
    VolumeList(input.(rootfsBytes := bytes))
  }

  lemma {:induction false} NoUserRootfsAmongClaims(vs: seq<VmVolume>)
    requires forall v :: v in vs ==> v.source.ClaimDisk?
    ensures FindEmptyDisk(vs) == None
  {
    if vs != [] {
      assert vs[0] in vs;
      NoUserRootfsAmongClaims(vs[1..]);
    }
  }

  /** A VMI that translation can build shows the capacity it was built with,
      unless its root filesystem is a claim. */
  lemma BuiltShowsCapacity(input: Input, bytes: Int64)
    requires WorkloadCount(input.pod) <= MAX_WORKLOADS && !UserRootfsFails(input.pod)
    ensures FindEmptyDisk(BuiltFor(input, bytes)) ==
            if UserRootfsClaim(input.pod).Some? then None
            else Some(CapacityN(bytes, WorkloadCount(input.pod)))
  {
    var built := input.(rootfsBytes := bytes);
    var vs := VolumeList(built);
    assert vs[0] == VmVolume(ROOT_DISK, ContainerDisk);
    assert vs[1..][0] == VmVolume(USER_ROOTFS, UserRootfsSource(built));
    if UserRootfsClaim(input.pod).Some? {
      var rest := vs[1..][1..];
      forall v | v in rest ensures v.source.ClaimDisk? {
        var i :| 0 <= i < |rest| && rest[i] == v;
        assert vs[i + 2] == v;
      }
      NoUserRootfsAmongClaims(rest);
    }
  }

  /** A VMI built for `bytes` is never judged too small for fewer bytes, exactly
      when its root filesystem is a claim or the sized sum fits 64 bits. */
  lemma NeverTooSmallExactly(input: Input, bytes: Int64)
    requires WorkloadCount(input.pod) <= MAX_WORKLOADS && !UserRootfsFails(input.pod)
    ensures (forall b: Int64 :: b <= bytes ==> !TooSmall(BuiltFor(input, bytes), input.pod, b)) <==>
            UserRootfsClaim(input.pod).Some? || Fits(bytes)
  {
    BuiltShowsCapacity(input, bytes);
    if UserRootfsClaim(input.pod).None? {
      if Fits(bytes) {
        forall b: Int64 | b <= bytes ensures !TooSmall(BuiltFor(input, bytes), input.pod, b) {
          CapacityGrows(b, bytes, WorkloadCount(input.pod));
        }
      } else {
        var b: Int64 := INT64_MAX - USER_ROOTFS_SLACK;
        assert CapacityN(b, WorkloadCount(input.pod)) == INT64_MAX;
        assert b <= bytes && TooSmall(BuiltFor(input, bytes), input.pod, b);
      }
    }
  }

  /** In numbers: a disk built for one size is too small for another exactly when
      that is positive and larger, and needs more than 256 MiB for each container,
      counting at least one, with 128 MiB to spare. */
  lemma TooSmallIs(input: Input, bytes: Int64, now: Int64)
    requires WorkloadCount(input.pod) <= MAX_WORKLOADS && !UserRootfsFails(input.pod)
    requires bytes <= 0x7fff_ffff_f7ff_ffff && now <= 0x7fff_ffff_f7ff_ffff
    ensures var n := |input.pod.containers| + |input.pod.inits|;
            TooSmall(BuiltFor(input, bytes), input.pod, now) <==>
            && UserRootfsClaim(input.pod).None? && now > 0 && now > bytes
            && now + 0x800_0000 > 0x1000_0000 * if n < 1 then 1 else n
  {
    BuiltShowsCapacity(input, bytes);
    CapacityIs(bytes, WorkloadCount(input.pod));
    CapacityIs(now, WorkloadCount(input.pod));
  }

  // ---------------------------------------------------------------- the loop

  datatype Phase = Pending | Running | Failed | Succeeded

  datatype Instance = Instance(volumes: seq<VmVolume>, phase: Phase)

  /** The store: the annotated size and the Pod's VMI.  `resizes` and `growths`
      count resize deletes and strict increases of the annotation. */
  datatype State = State(bytes: Int64, vmi: Option<Instance>, resizes: nat, growths: nat)

  /** A reconcile may find that translation reports some other error. */
  datatype Event = Annotate(bytes: Int64) | SetPhase(phase: Phase) | Reconcile(translates: bool)

  /** ensureVMI on a synchronous store. */
  function Ensure(input: Input, s: State, translates: bool): State
    requires WorkloadCount(input.pod) <= MAX_WORKLOADS
  {
    if s.vmi.Some? then
      if s.vmi.value.phase.Failed? || s.vmi.value.phase.Succeeded? then s.(vmi := None)
      else if TooSmall(s.vmi.value.volumes, input.pod, s.bytes) then s.(vmi := None, resizes := s.resizes + 1)
      else s
    else if UserRootfsFails(input.pod) || !translates then s
    else s.(vmi := Some(Instance(BuiltFor(input, s.bytes), Pending)))
  }

  function Next(input: Input, s: State, e: Event): State
    requires WorkloadCount(input.pod) <= MAX_WORKLOADS
  {
    match e
    case Annotate(b) => s.(bytes := b, growths := if b > s.bytes then s.growths + 1 else s.growths)
    case SetPhase(phase) => if s.vmi.Some? then s.(vmi := Some(s.vmi.value.(phase := phase))) else s
    case Reconcile(translates) => Ensure(input, s, translates)
  }

  function Run(input: Input, s: State, es: seq<Event>): State
    requires WorkloadCount(input.pod) <= MAX_WORKLOADS
    decreases |es|
  {
    if es == [] then s else Run(input, Next(input, s, es[0]), es[1..])
  }

  /** The sizes the annotation takes, in order. */
  ghost function Sizes(bytes: Int64, es: seq<Event>): seq<int>
    decreases |es|
  {
    if es == [] then [bytes]
    else if es[0].Annotate? then [bytes] + Sizes(es[0].bytes, es[1..])
    else Sizes(bytes, es[1..])
  }

  /** How often a number is larger than the one before it. */
  ghost function Rises(xs: seq<int>): nat {
    if |xs| <= 1 then 0 else (if xs[0] < xs[1] then 1 else 0) + Rises(xs[1..])
  }

  lemma {:induction false} SizesStart(bytes: Int64, es: seq<Event>)
    ensures Sizes(bytes, es) != [] && Sizes(bytes, es)[0] == bytes
    decreases |es|
  {
    if es != [] && !es[0].Annotate? { SizesStart(bytes, es[1..]); }
  }

  /** The count of growths is the number of strict increases of the annotation. */
  lemma {:induction false} GrowthsAreRises(input: Input, s: State, es: seq<Event>)
    requires WorkloadCount(input.pod) <= MAX_WORKLOADS
    ensures Run(input, s, es).growths == s.growths + Rises(Sizes(s.bytes, es))
    decreases |es|
  {
    if es != [] {
      GrowthsAreRises(input, Next(input, s, es[0]), es[1..]);
      if es[0].Annotate? {
        SizesStart(es[0].bytes, es[1..]);
        assert Sizes(s.bytes, es)[1..] == Sizes(es[0].bytes, es[1..]);
      }
    }
  }

  /** The VMI, if any, was built for `built` bytes, and every resize so far, and
      one that is due, has its own growth. */
  ghost predicate Justified(input: Input, s: State, built: Int64)
    requires WorkloadCount(input.pod) <= MAX_WORKLOADS
  {
    && (s.vmi.Some? ==> && s.vmi.value.volumes == BuiltFor(input, built) && !UserRootfsFails(input.pod)
                        && (UserRootfsClaim(input.pod).Some? || Fits(built)))
    && s.resizes + (if s.vmi.Some? && s.bytes > built then 1 else 0) <= s.growths
  }

  predicate AllFit(es: seq<Event>) {
    forall i :: 0 <= i < |es| && es[i].Annotate? ==> Fits(es[i].bytes)
  }

  lemma {:induction false} RunStaysJustified(input: Input, s: State, built: Int64, es: seq<Event>)
    returns (built': Int64)
    requires WorkloadCount(input.pod) <= MAX_WORKLOADS
    requires Justified(input, s, built)
    requires UserRootfsFails(input.pod) || UserRootfsClaim(input.pod).Some? || (Fits(s.bytes) && AllFit(es))
    ensures Justified(input, Run(input, s, es), built')
    decreases |es|
  {
    if es == [] {
      built' := built;
    } else {
      var t := Next(input, s, es[0]);
      var b := if es[0].Reconcile? && s.vmi.None? then s.bytes else built;
      if es[0].Reconcile? && s.vmi.Some? {
        BuiltShowsCapacity(input, built);
        if s.bytes <= built && Fits(built) { CapacityGrows(s.bytes, built, WorkloadCount(input.pod)); }
      }
      assert Justified(input, t, b);
      built' := RunStaysJustified(input, t, b, es[1..]);
    }
  }

  function Start(bytes: Int64): State { State(bytes, None, 0, 0) }

  /** Every size annotated in the run is at most `max`. */
  predicate Within(es: seq<Event>, max: Int64) {
    forall i :: 0 <= i < |es| && es[i].Annotate? ==> es[i].bytes <= max
  }

  /** The run makes no more resizes than the annotation grew. */
  predicate HasCause(input: Input, bytes: Int64, es: seq<Event>)
    requires WorkloadCount(input.pod) <= MAX_WORKLOADS
  {
    Run(input, Start(bytes), es).resizes <= Run(input, Start(bytes), es).growths
  }

  lemma ResizesHaveCause(input: Input, bytes: Int64, es: seq<Event>)
    requires WorkloadCount(input.pod) <= MAX_WORKLOADS
    requires UserRootfsFails(input.pod) || UserRootfsClaim(input.pod).Some? || (Fits(bytes) && AllFit(es))
    ensures HasCause(input, bytes, es)
  {
    var built := RunStaysJustified(input, Start(bytes), bytes, es);
  }

  /** Out of range the bound fails: a disk built for such a size has the minimal
      capacity, and a smaller annotation then forces a resize. */
  lemma {:induction false} WrappedSizeForcesResize(input: Input, bytes: Int64)
    requires WorkloadCount(input.pod) <= MAX_WORKLOADS && !UserRootfsFails(input.pod)
    requires UserRootfsClaim(input.pod).None? && !Fits(bytes)
    ensures var smaller := INT64_MAX - USER_ROOTFS_SLACK;
            var es := [Reconcile(true), Annotate(smaller), Reconcile(true)];
            && smaller < bytes && !HasCause(input, bytes, es)
            && Run(input, Start(bytes), es).resizes == 1 && Run(input, Start(bytes), es).growths == 0
  {
    var n, small: Int64 := WorkloadCount(input.pod), INT64_MAX - USER_ROOTFS_SLACK;
    BuiltShowsCapacity(input, bytes);
    assert CapacityN(bytes, n) == Floor(n) < INT64_MAX == CapacityN(small, n);
    var s0 := Start(bytes);
    var s1 := Next(input, s0, Reconcile(true));
    var s2 := Next(input, s1, Annotate(small));
    var s3 := Next(input, s2, Reconcile(true));
    assert s3.resizes == 1 && s3.growths == 0;
    var es := [Reconcile(true), Annotate(small), Reconcile(true)];
    assert es[1..] == [Annotate(small), Reconcile(true)] && es[1..][1..] == [Reconcile(true)] && es[1..][1..][1..] == [];
    assert Run(input, s3, []) == s3;
    assert Run(input, s2, [Reconcile(true)]) == s3;
    assert Run(input, s1, [Annotate(small), Reconcile(true)]) == s3;
  }

  /** Over all runs whose sizes stay within `max`, resizes never exceed growths,
      exactly when the Pod cannot be built, its root filesystem is a claim, or
      `max` plus slack fits 64 bits. */
  lemma ResizesHaveCauseExactly(input: Input, max: Int64)
    requires WorkloadCount(input.pod) <= MAX_WORKLOADS
    ensures (forall bytes: Int64, es :: bytes <= max && Within(es, max) ==> HasCause(input, bytes, es)) <==>
            UserRootfsFails(input.pod) || UserRootfsClaim(input.pod).Some? || Fits(max)
  {
    if UserRootfsFails(input.pod) || UserRootfsClaim(input.pod).Some? || Fits(max) {
      forall bytes: Int64, es | bytes <= max && Within(es, max) ensures HasCause(input, bytes, es) {
        ResizesHaveCause(input, bytes, es);
      }
    } else {
      WrappedSizeForcesResize(input, max);
      var es := [Reconcile(true), Annotate(INT64_MAX - USER_ROOTFS_SLACK), Reconcile(true)];
      assert Within(es, max);
    }
  }

  /** The VMI's disk has room for the annotated size and 128 MiB more. */
  ghost predicate Roomy(s: State) {
    s.vmi.Some? && FindEmptyDisk(s.vmi.value.volumes).Some? &&
    FindEmptyDisk(s.vmi.value.volumes).value >= s.bytes + 0x800_0000
  }

  /** From a justified state, two reconciles make the disk large enough. */
  lemma TwoReconcilesMakeRoom(input: Input, s: State, built: Int64)
    requires WorkloadCount(input.pod) <= MAX_WORKLOADS
    requires !UserRootfsFails(input.pod) && UserRootfsClaim(input.pod).None?
    requires Justified(input, s, built) && s.bytes <= 0x7fff_ffff_f7ff_ffff
    ensures Roomy(Ensure(input, Ensure(input, s, true), true))
  {
    BuiltShowsCapacity(input, s.bytes);
    CapacityIs(s.bytes, WorkloadCount(input.pod));
    if s.vmi.Some? {
      BuiltShowsCapacity(input, built);
    }
  }

  lemma {:induction false} RunConcat(input: Input, s: State, xs: seq<Event>, ys: seq<Event>)
    requires WorkloadCount(input.pod) <= MAX_WORKLOADS
    ensures Run(input, s, xs + ys) == Run(input, Run(input, s, xs), ys)
    decreases |xs|
  {
    if xs == [] {
      assert xs + ys == ys;
    } else {
      assert (xs + ys)[1..] == xs[1..] + ys;
      RunConcat(input, Next(input, s, xs[0]), xs[1..], ys);
    }
  }

  lemma {:induction false} SizesStayInRange(input: Input, s: State, es: seq<Event>)
    requires WorkloadCount(input.pod) <= MAX_WORKLOADS
    requires Fits(s.bytes) && AllFit(es)
    ensures Fits(Run(input, s, es).bytes)
    decreases |es|
  {
    if es != [] {
      SizesStayInRange(input, Next(input, s, es[0]), es[1..]);
    }
  }

  /** After every run, whatever the annotation did, two more reconciles leave the
      Pod with a disk that has room for it: growth is always followed. */
  lemma {:induction false} GrowthIsFollowed(input: Input, bytes: Int64, es: seq<Event>)
    requires WorkloadCount(input.pod) <= MAX_WORKLOADS
    requires !UserRootfsFails(input.pod) && UserRootfsClaim(input.pod).None?
    requires bytes <= 0x7fff_ffff_f7ff_ffff && Within(es, 0x7fff_ffff_f7ff_ffff)
    ensures Roomy(Run(input, Start(bytes), es + [Reconcile(true), Reconcile(true)]))
  {
    var built := RunStaysJustified(input, Start(bytes), bytes, es);
    SizesStayInRange(input, Start(bytes), es);
    var s, last := Run(input, Start(bytes), es), [Reconcile(true), Reconcile(true)];
    RunConcat(input, Start(bytes), es, last);
    TwoReconcilesMakeRoom(input, s, built);
    assert last[1..] == [Reconcile(true)] && last[1..][1..] == [];
    var t := Next(input, s, last[0]);
    assert Run(input, t, last[1..]) == Run(input, Next(input, t, last[1]), []);
  }

  // ---------------------------------------------------------------- the adaptor

  class Store {
    var bytes: Int64
    var vmi: Option<Instance>
    ghost var resizes: nat
    ghost var growths: nat

    ghost function Value(): State
      reads this
    {
      State(bytes, vmi, resizes, growths)
    }

    /** ensureVMI: what it finds, deletes or creates; None means an error that
        puts the Pod back on the queue. */
    method EnsureVmi(input: Input, translates: bool) returns (found: Option<Instance>)
      requires WorkloadCount(input.pod) <= MAX_WORKLOADS
      modifies this
      ensures Value() == Ensure(input, old(Value()), translates)
      ensures found.Some? ==> vmi == found
      ensures old(vmi).Some? && old(vmi).value.phase in {Failed, Succeeded} ==> vmi == found == None
      ensures old(vmi).Some? && resizes != old(resizes) ==> vmi == found == None
      ensures old(vmi).None? && vmi.Some? ==> found == vmi && vmi.value.phase == Pending
    {
      if vmi.Some? {
        if vmi.value.phase == Failed || vmi.value.phase == Succeeded {
          vmi := None;
          return None;
        }
        if TooSmall(vmi.value.volumes, input.pod, bytes) {
          vmi := None;
          resizes := resizes + 1;
          return None;
        }
        return vmi;
      }
      if UserRootfsFails(input.pod) || !translates { return None; }
      vmi := Some(Instance(VolumeList(input.(rootfsBytes := bytes)), Pending));
      return vmi;
    }
  }
}
