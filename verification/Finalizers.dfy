/** Deleting a sandbox Pod: the webhook, other clients and the adaptor.

    The adaptor deletes the Pod's VMI and then strips its own finalizer from the
    Pod.  It works from cached copies; updates carry the version they were made
    from and are refused when the Pod has moved on.  Every update passes the
    webhook.  This module proves over all interleavings that the finalizer, once
    stripped from a deleting Pod, never comes back, that other finalizers keep
    their order, and that each strip follows a delete of the right VMI. */
module Finalizers {
  import opened Options
  import opened Strings
  import opened Sequences
  import opened Volumes
  import Pods

  const VMI_PREFIX := "marooned-"
  const DEFAULT_INFRA_NAMESPACE := "marooned-system"

  // ---------------------------------------------------------------- names

  datatype Key = Key(ns: string, name: string)

  /** splitRef: at the first slash; without one, the infra namespace. */
  function SplitRef(ref: string): Key {
    var k := Slash(ref, 0);
    if k < |ref| then Key(ref[..k], ref[k + 1..]) else Key(DEFAULT_INFRA_NAMESPACE, ref)
  }

  /** What annotatePod writes and splitRef reads back. */
  lemma SplitRefRoundTrip(key: Key)
    ensures SplitRef(key.ns + "/" + key.name) == key <==> '/' !in key.ns
  {
    var ref := key.ns + "/" + key.name;
    var k := Slash(ref, 0);
    assert ref[|key.ns|] == '/' && k <= |key.ns|;
    assert forall j :: 0 <= j < |key.ns| ==> ref[j] == key.ns[j];
    if '/' !in key.ns {
      assert k == |key.ns| && ref[..k] == key.ns && ref[k + 1..] == key.name;
    } else {
      var i :| 0 <= i < |key.ns| && key.ns[i] == '/';
      assert ref[i] == '/' && k <= i;
    }
  }

  /** Without a slash the name is taken whole, in the infra namespace. */
  lemma PlainRefIsInfra(ref: string)
    requires '/' !in ref
    ensures SplitRef(ref) == Key("marooned-system", ref)
  {
    assert Slash(ref, 0) == |ref|;
  }

  function LowerChar(c: char): char {
    if 'A' <= c <= 'Z' then c + 32 as char else c
  }

  function Lower(s: string): (r: string)
    ensures |r| == |s| && forall i :: 0 <= i < |s| ==> r[i] == LowerChar(s[i])
  {
    if s == "" then "" else [LowerChar(s[0])] + Lower(s[1..])
  }

  /** Codes 65 to 90 move up by 32 and nothing else changes; a second pass changes
      nothing. */
  lemma {:induction false} LowerIs(s: string, i: nat)
    requires i < |s|
    ensures Lower(s)[i] as int == s[i] as int + if 65 <= s[i] as int <= 90 then 32 else 0
    ensures Lower(Lower(s)) == Lower(s) && PlannedName(s) == "marooned-" + Lower(s)
  {
    var r := Lower(s);
    assert |Lower(r)| == |r| && forall k :: 0 <= k < |r| ==> Lower(r)[k] == r[k];
  }

  /** The name PlanVMI gives the Pod's VMI. */
  function PlannedName(uid: string): string { VMI_PREFIX + Lower(uid) }

  /** The name deleteSandboxVMI uses without a cached annotated VMI. */
  function ImpliedName(uid: string): string { VMI_PREFIX + uid }

  /** They are the same exactly for UIDs without upper-case letters. */
  lemma ImpliedIsPlannedExactly(uid: string)
    ensures ImpliedName(uid) == PlannedName(uid) <==> forall c :: c in uid ==> !('A' <= c <= 'Z')
  {
    assert ImpliedName(uid)[|VMI_PREFIX|..] == uid && PlannedName(uid)[|VMI_PREFIX|..] == Lower(uid);
    if i :| 0 <= i < |uid| && 'A' <= uid[i] <= 'Z' {
      assert uid[i] in uid && Lower(uid)[i] == LowerChar(uid[i]) && LowerChar(uid[i]) != uid[i];
    } else {
      assert Lower(uid) == uid;
    }
  }

  // ---------------------------------------------------------------- stripping

  /** The list without the sandbox finalizer, in order. */
  function Without(fs: seq<string>): seq<string> {
    if fs == [] then []
    else Without(fs[..|fs| - 1]) + if fs[|fs| - 1] == SANDBOX_FINALIZER then [] else [fs[|fs| - 1]]
  }

  /** The positions of the survivors. */
  function Kept(fs: seq<string>): seq<nat> {
    if fs == [] then []
    else Kept(fs[..|fs| - 1]) + if fs[|fs| - 1] == SANDBOX_FINALIZER then [] else [|fs| - 1]
  }

  /** The survivors keep their order: they stand at increasing positions of the
      list, and those are exactly the positions without the sandbox finalizer. */
  lemma {:induction false} WithoutKeepsOrder(fs: seq<string>)
    ensures |Kept(fs)| == |Without(fs)|
    ensures forall j :: 0 <= j < |Kept(fs)| ==> Kept(fs)[j] < |fs| && Without(fs)[j] == fs[Kept(fs)[j]]
    ensures forall i, j :: 0 <= i < j < |Kept(fs)| ==> Kept(fs)[i] < Kept(fs)[j]
    ensures forall i :: i in Kept(fs) <==> 0 <= i < |fs| && fs[i] != SANDBOX_FINALIZER
  {
    if fs != [] {
      WithoutKeepsOrder(fs[..|fs| - 1]);
    }
  }

  lemma {:induction false} WithoutIsClean(fs: seq<string>)
    ensures SANDBOX_FINALIZER !in Without(fs)
    ensures SANDBOX_FINALIZER !in fs ==> Without(fs) == fs
    ensures forall f :: f in fs && f != SANDBOX_FINALIZER ==> f in Without(fs)
  {
    if fs != [] {
      WithoutIsClean(fs[..|fs| - 1]);
      assert fs == fs[..|fs| - 1] + [fs[|fs| - 1]];
    }
  }

  /** Only the one finalizer goes. */
  lemma {:induction false} WithoutIsFilter(fs: seq<string>)
    ensures Without(fs) == Filter(fs, (f: string) => f != "maroonedpods.io/sandbox-cleanup")
  {
    if fs != [] {
      WithoutIsFilter(fs[..|fs| - 1]);
      FilterSnoc(fs, (f: string) => f != "maroonedpods.io/sandbox-cleanup");
    }
  }

  /** stripSandboxFinalizer, compacting the slice in place. */
  method StripInPlace(a: array<string>) returns (n: nat)
    modifies a
    ensures n <= a.Length && a[..n] == Without(old(a[..]))
  {
    ghost var before := a[..];
    n := 0;
    for i := 0 to a.Length
      invariant n <= i
      invariant a[..n] == Without(before[..i])
      invariant a[i..] == before[i..]
    {
      assert before[..i + 1][..i] == before[..i];
      assert a[i] == a[i..][0] && before[i] == before[i..][0];
      if a[i] != SANDBOX_FINALIZER {
        a[n] := a[i];
        n := n + 1;
        assert a[..n] == a[..n - 1] + [a[n - 1]];
      }
      assert a[i + 1..] == before[i..][1..];
    }
    assert before[..a.Length] == before;
  }

  // ---------------------------------------------------------------- the protocol

  /** The Pod as stored: its version grows with every change. */
  datatype Meta = Meta(version: nat, deleting: bool, finalizers: seq<string>, vmiRef: string)

  /** What the adaptor did: a delete request, decided on a copy of the Pod and
      the VMI cache of that moment, or a strip that the API server accepted. */
  datatype Action =
    | Issued(pod: Meta, cached: set<Key>, target: Option<Key>)
    | Stripped(before: seq<string>, after: seq<string>)

  datatype State = State(
    pod: Meta,               // in the API server
    vmis: set<Key>,         // in the API server
    podCache: Meta,
    vmiCache: set<Key>,
    work: Option<Meta>,      // the copy the adaptor is about to strip
    log: seq<Action>)

  /** The Pod's fixed identity. */
  datatype Id = Id(ns: string, uid: string)

  datatype Event =
    | MarkDeleting
    | OtherUpdate(finalizers: seq<string>, vmiRef: string)   // any other client
    | Annotate(vmiRef: string)                               // annotatePod
    | RefreshPod
    | RefreshVmis
    | VmisChange(vmis: set<Key>)
    | IssueDelete                                            // handleDelete, first half
    | Strip                                                  // handleDelete, second half

  /** MutateSandboxPod's effect on the finalizers. */
  function Webhook(p: Meta): Meta {
    if p.deleting || SANDBOX_FINALIZER in p.finalizers then p
    else p.(finalizers := p.finalizers + [SANDBOX_FINALIZER])
  }

  /** It leaves a deleting Pod alone, gives a live one the sandbox finalizer, and
      keeps every other finalizer in its place. */
  lemma WebhookKeepsOthers(p: Meta)
    ensures p.deleting ==> Webhook(p) == p
    ensures !p.deleting ==> "maroonedpods.io/sandbox-cleanup" in Webhook(p).finalizers
    ensures p.finalizers <= Webhook(p).finalizers && Without(Webhook(p).finalizers) == Without(p.finalizers)
    ensures Webhook(p) == p.(finalizers := Webhook(p).finalizers)
  {
  }

  /** That is what admission does to the whole Pod's finalizers. */
  lemma WebhookIsAdmission(p: Pods.Pod, size: Pods.Snapshot -> nat, m: Meta)
    requires Admit(p, size).Admitted? && m.deleting == p.deleting && m.finalizers == p.finalizers
    ensures Webhook(m).finalizers == Admit(p, size).pod.finalizers
  {
  }

  /** The API server stores an update: through the webhook, with a new version. */
  function Stored(p: Meta, was: Meta): Meta {
    Webhook(p).(version := was.version + 1, deleting := was.deleting)
  }

  /** deleteSandboxVMI: the cached annotated VMI, or else the implied name. */
  function Target(id: Id, p: Meta, cached: set<Key>): Option<Key> {
    if p.vmiRef != "" && SplitRef(p.vmiRef) in cached then Some(SplitRef(p.vmiRef))
    else if id.uid == "" then None
    else Some(Key(id.ns, ImpliedName(id.uid)))
  }

  predicate Enabled(s: State, e: Event) {
    match e
    case MarkDeleting => !s.pod.deleting
    // the API server refuses new finalizers on a Pod that is being deleted
    case OtherUpdate(fs, _) => s.pod.deleting ==> forall f :: f in fs ==> f in s.pod.finalizers
    case Annotate(_) => s.work.None? && !s.podCache.deleting
    case RefreshPod => true
    case RefreshVmis => true
    case VmisChange(_) => true
    case IssueDelete => s.work.None? && s.podCache.deleting && SANDBOX_FINALIZER in s.podCache.finalizers
    case Strip => s.work.Some?
  }

  function Next(id: Id, s: State, e: Event): State
    requires Enabled(s, e)
  {
    match e
    case MarkDeleting => s.(pod := s.pod.(deleting := true, version := s.pod.version + 1))
    case OtherUpdate(fs, ref) => s.(pod := Stored(s.pod.(finalizers := fs, vmiRef := ref), s.pod))
    case Annotate(ref) =>
      if s.podCache.version != s.pod.version then s   // refused: conflict
      else s.(pod := Stored(s.podCache.(vmiRef := ref), s.pod))
    case RefreshPod => s.(podCache := s.pod)
    case RefreshVmis => s.(vmiCache := s.vmis)
    case VmisChange(vmis) => s.(vmis := vmis)
    case IssueDelete =>
      var t := Target(id, s.podCache, s.vmiCache);
      s.(vmis := if t.Some? then s.vmis - {t.value} else s.vmis,
         work := Some(s.podCache),
         log := s.log + [Issued(s.podCache, s.vmiCache, t)])
    case Strip =>
      var copy := s.work.value;
      if copy.version != s.pod.version then s.(work := None)   // refused: conflict
      else
        var next := Stored(copy.(finalizers := Without(copy.finalizers)), s.pod);
        s.(pod := next, work := None,
           log := s.log + [Stripped(s.pod.finalizers, next.finalizers)])
  }

  predicate Possible(id: Id, s: State, es: seq<Event>)
    decreases |es|
  {
    es == [] || (Enabled(s, es[0]) && Possible(id, Next(id, s, es[0]), es[1..]))
  }

  function After(id: Id, s: State, es: seq<Event>): State
    requires Possible(id, s, es)
    decreases |es|
  {
    if es == [] then s else After(id, Next(id, s, es[0]), es[1..])
  }

  /** A copy is never newer than the Pod, and of the same version only if equal. */
  predicate Copy(c: Meta, p: Meta) {
    c.version <= p.version && (c.version == p.version ==> c == p) && (c.deleting ==> p.deleting)
  }

  /** A strip directly follows its delete request, takes exactly the sandbox
      finalizer, and the request named the right VMI. */
  predicate Justified(id: Id, log: seq<Action>, i: nat)
    requires i < |log|
  {
    match log[i]
    case Issued(p, cached, t) =>
      p.deleting && SANDBOX_FINALIZER in p.finalizers && t == Target(id, p, cached)
    case Stripped(before, after) =>
      && after == Without(before)
      && i > 0 && log[i - 1].Issued? && log[i - 1].pod.finalizers == before
  }

  ghost predicate Sound(id: Id, s: State) {
    && Copy(s.podCache, s.pod)
    && (s.work.Some? ==>
          && Copy(s.work.value, s.pod) && s.work.value.deleting
          && |s.log| > 0 && s.log[|s.log| - 1].Issued? && s.log[|s.log| - 1].pod == s.work.value)
    && (forall i :: 0 <= i < |s.log| ==> Justified(id, s.log, i))
  }

  lemma LogGrows(id: Id, log: seq<Action>, a: Action)
    requires forall i :: 0 <= i < |log| ==> Justified(id, log, i)
    requires Justified(id, log + [a], |log|)
    ensures forall i :: 0 <= i < |log + [a]| ==> Justified(id, log + [a], i)
  {
    forall i | 0 <= i < |log| ensures Justified(id, log + [a], i) {
      assert Justified(id, log, i) && (log + [a])[i] == log[i];
      if i > 0 { assert (log + [a])[i - 1] == log[i - 1]; }
    }
  }

  lemma NextKeepsSound(id: Id, s: State, e: Event)
    requires Sound(id, s) && Enabled(s, e)
    ensures Sound(id, Next(id, s, e))
  {
    match e
    case IssueDelete =>
      LogGrows(id, s.log, Issued(s.podCache, s.vmiCache, Target(id, s.podCache, s.vmiCache)));
    case Strip =>
      if s.work.value.version == s.pod.version {
        var next := Stored(s.work.value.(finalizers := Without(s.work.value.finalizers)), s.pod);
        LogGrows(id, s.log, Stripped(s.pod.finalizers, next.finalizers));
      }
    case _ =>
  }

  lemma {:induction false} AfterKeepsSound(id: Id, s: State, es: seq<Event>)
    requires Sound(id, s) && Possible(id, s, es)
    ensures Sound(id, After(id, s, es))
    decreases |es|
  {
    if es != [] {
      NextKeepsSound(id, s, es[0]);
      AfterKeepsSound(id, Next(id, s, es[0]), es[1..]);
    }
  }

  /** Any stored Pod, freshly cached, with nothing in progress. */
  function Start(p: Meta, vmis: set<Key>): State {
    State(p, vmis, p, vmis, None, [])
  }

  /** In every interleaving, every strip removed exactly the sandbox finalizer
      and directly followed a delete request; for a Pod with a UID that names the
      cached annotated VMI or else the implied one. */
  lemma {:induction false} StripFollowsDelete(id: Id, p: Meta, vmis: set<Key>, es: seq<Event>, i: nat)
    requires Possible(id, Start(p, vmis), es)
    requires var log := After(id, Start(p, vmis), es).log; i < |log| && log[i].Stripped?
    ensures var log := After(id, Start(p, vmis), es).log;
            && i > 0 && log[i - 1].Issued?
            && log[i].before == log[i - 1].pod.finalizers && log[i].after == Without(log[i].before)
            && var d := log[i - 1];
               (id.uid != "" ==>
                  d.target == Some(if d.pod.vmiRef != "" && SplitRef(d.pod.vmiRef) in d.cached
                                   then SplitRef(d.pod.vmiRef) else Key(id.ns, ImpliedName(id.uid))))
  {
    AfterKeepsSound(id, Start(p, vmis), es);
    var log := After(id, Start(p, vmis), es).log;
    assert Justified(id, log, i);
    assert Justified(id, log, i - 1);
  }

  predicate Released(p: Meta) { p.deleting && SANDBOX_FINALIZER !in p.finalizers }

  /** Once a deleting Pod is without the sandbox finalizer it stays without. */
  lemma {:induction false} FinalizerNeverReturns(id: Id, s: State, es: seq<Event>)
    requires Sound(id, s) && Possible(id, s, es) && Released(s.pod)
    ensures Released(After(id, s, es).pod)
    decreases |es|
  {
    if es != [] {
      NextKeepsSound(id, s, es[0]);
      if es[0].Strip? {
        WithoutIsClean(s.work.value.finalizers);
      }
      FinalizerNeverReturns(id, Next(id, s, es[0]), es[1..]);
    }
  }

  /** No other client updates the Pod. */
  predicate Alone(es: seq<Event>) {
    forall i :: 0 <= i < |es| ==> !es[i].OtherUpdate?
  }

  lemma NextKeepsOthers(id: Id, s: State, e: Event)
    requires Sound(id, s) && Enabled(s, e) && !e.OtherUpdate?
    ensures Without(Next(id, s, e).pod.finalizers) == Without(s.pod.finalizers)
  {
    match e
    case Annotate(ref) =>
      WebhookKeepsOthers(s.podCache.(vmiRef := ref));
    case Strip =>
      var fs := s.work.value.finalizers;
      WithoutIsClean(fs);
      WithoutIsClean(Without(fs));
    case _ =>
  }

  /** Webhook and adaptor alone never lose, add or reorder another finalizer. */
  lemma {:induction false} OtherFinalizersSurvive(id: Id, s: State, es: seq<Event>)
    requires Sound(id, s) && Possible(id, s, es) && Alone(es)
    ensures Filter(After(id, s, es).pod.finalizers, (f: string) => f != "maroonedpods.io/sandbox-cleanup")
         == Filter(s.pod.finalizers, (f: string) => f != "maroonedpods.io/sandbox-cleanup")
    decreases |es|
  {
    if es != [] {
      var t := Next(id, s, es[0]);
      NextKeepsSound(id, s, es[0]);
      NextKeepsOthers(id, s, es[0]);
      OtherFinalizersSurvive(id, t, es[1..]);
      WithoutIsFilter(s.pod.finalizers);
      WithoutIsFilter(t.pod.finalizers);
    }
  }

  /** Every update by another client names the sandbox finalizer, or finds the Pod
      live, so that the webhook puts it back. */
  predicate Respected(id: Id, s: State, es: seq<Event>)
    requires Possible(id, s, es)
    decreases |es|
  {
    es == [] ||
    (&& (es[0].OtherUpdate? ==> !s.pod.deleting || SANDBOX_FINALIZER in es[0].finalizers)
     && Respected(id, Next(id, s, es[0]), es[1..]))
  }

  /** The log only grows. */
  lemma {:induction false} LogIsKept(id: Id, s: State, es: seq<Event>)
    requires Possible(id, s, es)
    ensures s.log <= After(id, s, es).log
    decreases |es|
  {
    if es != [] {
      LogIsKept(id, Next(id, s, es[0]), es[1..]);
    }
  }

  /** The finalizer leaves the Pod only by a strip: when it is gone at the end of a
      run, the run stripped it, and by then the VMI's delete was requested. */
  lemma {:induction false} GoneOnlyByStrip(id: Id, s: State, es: seq<Event>) returns (i: nat)
    requires Sound(id, s) && Possible(id, s, es) && Respected(id, s, es)
    requires "maroonedpods.io/sandbox-cleanup" in s.pod.finalizers
    requires "maroonedpods.io/sandbox-cleanup" !in After(id, s, es).pod.finalizers
    ensures var log := After(id, s, es).log;
            && |s.log| <= i < |log| && log[i].Stripped?
            && i > 0 && log[i - 1].Issued? && log[i - 1].target == Target(id, log[i - 1].pod, log[i - 1].cached)
    decreases |es|
  {
    var t := Next(id, s, es[0]);
    NextKeepsSound(id, s, es[0]);
    if SANDBOX_FINALIZER in t.pod.finalizers {
      i := GoneOnlyByStrip(id, t, es[1..]);
    } else {
      assert es[0].Strip?;
      i := |s.log|;
      LogIsKept(id, t, es[1..]);
      AfterKeepsSound(id, t, es[1..]);
      assert Justified(id, t.log, i) && Justified(id, t.log, i - 1);
    }
  }

  /** A step the adaptor takes by itself. */
  predicate IsAdaptors(e: Event) { e.RefreshPod? || e.RefreshVmis? || e.IssueDelete? || e.Strip? }

  lemma {:induction false} RunSteps(id: Id, s: State, e: Event, es: seq<Event>)
    requires Enabled(s, e) && Possible(id, Next(id, s, e), es)
    ensures Possible(id, s, [e] + es) && After(id, s, [e] + es) == After(id, Next(id, s, e), es)
  {
    assert ([e] + es)[1..] == es;
  }

  /** With nothing in hand: look at the Pod and the VMIs, delete, strip. */
  lemma {:induction false} FreshRelease(id: Id, s: State)
    requires Sound(id, s) && s.work.None? && s.pod.deleting && SANDBOX_FINALIZER in s.pod.finalizers
    ensures var es := [RefreshPod] + ([RefreshVmis] + ([IssueDelete] + ([Strip] + [])));
            && Possible(id, s, es) && Released(After(id, s, es).pod)
            && var t := Target(id, s.pod, s.vmis); (id.uid != "" ==> t.Some? && t.value !in After(id, s, es).vmis)
  {
    var s1 := Next(id, s, RefreshPod);
    var s2 := Next(id, s1, RefreshVmis);
    var s3 := Next(id, s2, IssueDelete);
    var s4 := Next(id, s3, Strip);
    WithoutIsClean(s.pod.finalizers);
    RunSteps(id, s3, Strip, []);
    RunSteps(id, s2, IssueDelete, [Strip] + []);
    RunSteps(id, s1, RefreshVmis, [IssueDelete] + ([Strip] + []));
    RunSteps(id, s, RefreshPod, [RefreshVmis] + ([IssueDelete] + ([Strip] + [])));
  }

  /** From every reachable state with the Pod being deleted, the adaptor can release
      it by its own steps, whatever old copies it holds. */
  lemma CanRelease(id: Id, s: State) returns (es: seq<Event>)
    requires Sound(id, s) && s.pod.deleting
    ensures Possible(id, s, es) && Released(After(id, s, es).pod)
    ensures forall e :: e in es ==> IsAdaptors(e)
  {
    if SANDBOX_FINALIZER !in s.pod.finalizers {
      es := [];
    } else if s.work.None? {
      FreshRelease(id, s);
      es := [RefreshPod] + ([RefreshVmis] + ([IssueDelete] + ([Strip] + [])));
    } else {
      var t := Next(id, s, Strip);
      NextKeepsSound(id, s, Strip);
      if s.work.value.version == s.pod.version {
        WithoutIsClean(s.work.value.finalizers);
        RunSteps(id, s, Strip, []);
        es := [Strip] + [];
      } else {
        FreshRelease(id, t);
        es := [Strip] + ([RefreshPod] + ([RefreshVmis] + ([IssueDelete] + ([Strip] + []))));
        RunSteps(id, s, Strip, [RefreshPod] + ([RefreshVmis] + ([IssueDelete] + ([Strip] + []))));
      }
    }
  }
}
