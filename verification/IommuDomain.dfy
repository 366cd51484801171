/** The driver's entry points, working in place on the domain's node list.

    Each method is proved against the list functions of module `Iommu`
    (`MapList`, `UnmapList`, `Lookup`), about which the byte-map refinement is
    proved.  `owned` is the set of nodes obtained from the allocator and not
    yet given back: `Valid` says that these are exactly the nodes on the list,
    so no call leaks a node or frees one twice. */
module IommuDomain {
  import opened Words
  import opened Iommu

  class Mapping {
    var iova: Uint64
    var paddr: Uint64
    var size: Uint64

    constructor ()
      ensures iova == 0 && paddr == 0 && size == 0
    {
      iova, paddr, size := 0, 0, 0;
    }

    function Value(): Range
      reads this
    {
      Range(iova, paddr, size)
    }
  }

  ghost function Values(nodes: seq<Mapping>): seq<Range>
    reads nodes
  {
    seq(|nodes|, i requires 0 <= i < |nodes| reads nodes => nodes[i].Value())
  }

  ghost predicate Distinct(nodes: seq<Mapping>) {
    forall i, j :: 0 <= i < j < |nodes| ==> nodes[i] != nodes[j]
  }

  ghost function Members(nodes: seq<Mapping>): set<Mapping> {
    set n | n in nodes
  }

  // ---------------------------------------------------------------- the walk, on values

  /** The list while the walk stands before the `j`-th original node: pieces of
      the nodes passed, the nodes still to come, then the split node if any. */
  ghost function Layout(rs: seq<Range>, j: nat, lo: int, hi: int): seq<Range>
    requires WellFormed(rs) && j <= |rs| && 0 <= lo < hi < TWO64
  {
    KeepAll(rs[..j], lo, hi) + rs[j..] + SplitAll(rs[..j], lo, hi)
  }

  /** The list with its `i`-th element replaced by at most one, and an appendix. */
  ghost function Spliced<T>(vals: seq<T>, i: nat, keep: seq<T>, extra: seq<T>): seq<T>
    requires i < |vals|
  {
    if keep == [] then vals[..i] + vals[i + 1..]
    else if extra == [] then vals[i := keep[0]]
    else vals[i := keep[0]] + extra
  }

  lemma Splice<T>(done: seq<T>, x: T, rest: seq<T>, tail: seq<T>, keep: seq<T>, extra: seq<T>)
    requires |keep| <= 1 && (keep == [] ==> extra == [])
    ensures var here := done + ([x] + rest) + tail;
            && |done| < |here| && here[|done|] == x
            && Spliced(here, |done|, keep, extra) == (done + keep) + rest + (tail + extra)
  {
  }

  lemma {:induction false} PrefixStep(rs: seq<Range>, j: nat, lo: int, hi: int)
    requires WellFormed(rs) && j < |rs| && 0 <= lo < hi < TWO64
    ensures KeepAll(rs[..j + 1], lo, hi) == KeepAll(rs[..j], lo, hi) + Keep(rs[j], lo, hi)
    ensures SplitAll(rs[..j + 1], lo, hi) == SplitAll(rs[..j], lo, hi) + Split(rs[j], lo, hi)
    ensures SharedAll(rs[..j + 1], lo, hi) == SharedAll(rs[..j], lo, hi) + Shared(rs[j], lo, hi)
  {
    assert rs[..j + 1][..j] == rs[..j];
  }

  /** What passing one node does to the layout. */
  lemma {:induction false} LayoutStep(rs: seq<Range>, j: nat, lo: int, hi: int)
    requires WellFormed(rs) && j < |rs| && 0 <= lo < hi < TWO64
    ensures var i := |KeepAll(rs[..j], lo, hi)|;
            var here := Layout(rs, j, lo, hi);
            && i < |here| && here[i] == rs[j]
            && Layout(rs, j + 1, lo, hi) == Spliced(here, i, Keep(rs[j], lo, hi), Split(rs[j], lo, hi))
            && |KeepAll(rs[..j + 1], lo, hi)| == i + |Keep(rs[j], lo, hi)|
  {
    PrefixStep(rs, j, lo, hi);
    KeepWithin(rs[j], lo, hi);
    assert rs[j..] == [rs[j]] + rs[j + 1..];
    Splice(KeepAll(rs[..j], lo, hi), rs[j], rs[j + 1..], SplitAll(rs[..j], lo, hi),
           Keep(rs[j], lo, hi), Split(rs[j], lo, hi));
  }

  /** A node that strictly contains `[lo, hi)` finds the list untouched so far. */
  lemma {:induction false} InteriorIsAlone(rs: seq<Range>, j: nat, lo: int, hi: int)
    requires WellFormed(rs) && j < |rs| && 0 <= lo < hi < TWO64 && Interior(rs[j], lo, hi)
    ensures Layout(rs, j, lo, hi) == rs
    ensures SharedAll(rs[..j], lo, hi) == 0 && SplitAll(rs[..j], lo, hi) == []
    ensures NeedsSplit(rs, lo, hi)
  {
    var before := rs[..j];
    forall i | 0 <= i < |before| ensures Outside(before[i], lo, hi) {
      assert before[i] == rs[i] && Apart(rs[i], rs[j]);
    }
    assert WellFormed(before);
    UntouchedOutside(before, lo, hi);
    assert before + rs[j..] + [] == rs;
  }

  /** The walk's state before the `j`-th original node: the list's values, the
      cursor, whether the walk is over, the bytes unmapped so far, and whether
      the spare node has been used. */
  datatype Walk = Walk(vals: seq<Range>, i: nat, finished: bool, unmapped: nat, used: bool)

  ghost predicate Walking(w: Walk, rs: seq<Range>, lo: int, hi: int, j: nat)
    requires WellFormed(rs) && 0 <= lo < hi < TWO64
  {
    && j <= |rs|
    && w.vals == Layout(rs, j, lo, hi)
    && w.unmapped == SharedAll(rs[..j], lo, hi)
    && (w.used <==> SplitAll(rs[..j], lo, hi) != [])
    && (j < |rs| ==> !w.finished)
    && (!w.finished ==> w.i == |KeepAll(rs[..j], lo, hi)|)
    && (j == |rs| && !w.finished ==> |SplitAll(rs[..j], lo, hi)| == 1)
  }

  /** What the loop body does to the node under the cursor. */
  ghost function Pass(w: Walk, lo: int, hi: int): Walk
    requires w.i < |w.vals| && Proper(w.vals[w.i]) && 0 <= lo < hi < TWO64
  {
    var r := w.vals[w.i];
    Walk(Spliced(w.vals, w.i, Keep(r, lo, hi), Split(r, lo, hi)),
         w.i + |Keep(r, lo, hi)|,
         w.i + 1 == |w.vals|,
         w.unmapped + Shared(r, lo, hi),
         w.used || Interior(r, lo, hi))
  }

  /** The node under the cursor: the `j`-th original or, past the last one, the
      split node, which lies outside the request. */
  lemma {:induction false} CursorNode(w: Walk, rs: seq<Range>, lo: int, hi: int, j: nat)
    requires WellFormed(rs) && 0 <= lo < hi < TWO64
    requires Walking(w, rs, lo, hi, j) && !w.finished
    ensures w.i < |w.vals| && Proper(w.vals[w.i])
    ensures j < |rs| ==> w.vals[w.i] == rs[j]
    ensures j == |rs| ==> w.i + 1 == |w.vals| && Outside(w.vals[w.i], lo, hi)
    ensures w.i + 1 == |w.vals| <==> j == |rs| || (j + 1 == |rs| && SplitAll(rs[..j], lo, hi) == [])
  {
    assert rs[..|rs|] == rs;
    if j < |rs| {
      LayoutStep(rs, j, lo, hi);
      assert Proper(rs[j]);
    } else {
      SplitStarts(rs, lo, hi);
      assert SplitAll(rs, lo, hi)[0] in SplitAll(rs, lo, hi);
    }
  }

  /** One turn of the loop on an original node keeps the walk's invariant. */
  lemma WalkOn(w: Walk, rs: seq<Range>, lo: int, hi: int, j: nat)
    requires WellFormed(rs) && 0 <= lo < hi < TWO64 && j < |rs|
    requires Walking(w, rs, lo, hi, j)
    ensures w.i < |w.vals| && w.vals[w.i] == rs[j] && Proper(rs[j])
    ensures Walking(Pass(w, lo, hi), rs, lo, hi, j + 1)
  {
    CursorNode(w, rs, lo, hi, j);
    LayoutStep(rs, j, lo, hi);
    PrefixStep(rs, j, lo, hi);
    if j + 1 == |rs| && w.i + 1 != |w.vals| {
      assert rs[..j + 1] == rs;
      OneSplit(rs, lo, hi);
    }
  }

  /** Everything one turn of the loop needs to know. */
  lemma TurnIsSound(w: Walk, rs: seq<Range>, lo: int, hi: int, j: nat)
    requires WellFormed(rs) && 0 <= lo < hi < TWO64
    requires Walking(w, rs, lo, hi, j) && !w.finished
    ensures w.i < |w.vals| && Proper(w.vals[w.i])
    ensures w.unmapped + Shared(w.vals[w.i], lo, hi) < TWO64
    ensures Walking(Pass(w, lo, hi), rs, lo, hi, if j < |rs| then j + 1 else j)
    ensures j == |rs| ==> Pass(w, lo, hi).finished && !Interior(w.vals[w.i], lo, hi)
    ensures j < |rs| ==> w.vals[w.i] == rs[j]
  {
    CursorNode(w, rs, lo, hi, j);
    if j < |rs| {
      WalkOn(w, rs, lo, hi, j);
      PassBound(Pass(w, lo, hi), rs, lo, hi, j + 1);
    } else {
      PassBound(w, rs, lo, hi, j);
    }
  }

  lemma WalkBegins(rs: seq<Range>, lo: int, hi: int)
    requires WellFormed(rs) && 0 <= lo < hi < TWO64
    ensures Walking(Walk(rs, 0, rs == [], 0, false), rs, lo, hi, 0)
  {
    assert rs[..0] == [] && [] + rs + [] == rs;
  }

  /** A finished walk has done what the list function says. */
  lemma WalkDone(w: Walk, rs: seq<Range>, lo: int, hi: int, j: nat, alloc: bool)
    requires WellFormed(rs) && 0 <= lo < hi < TWO64
    requires Walking(w, rs, lo, hi, j) && w.finished
    requires w.used ==> alloc
    ensures (w.vals, w.unmapped as int) == UnmapRange(rs, lo, hi, alloc)
    ensures WellFormed(w.vals)
  {
    assert rs[..j] == rs && rs[j..] == [];
    assert KeepAll(rs, lo, hi) + [] + SplitAll(rs, lo, hi) == KeepAll(rs, lo, hi) + SplitAll(rs, lo, hi);
    OneSplit(rs, lo, hi);
    UnmapCuts(rs, lo, hi);
  }

  /** A walk that meets a node it cannot split has changed nothing. */
  lemma WalkStarved(w: Walk, rs: seq<Range>, lo: int, hi: int, j: nat)
    requires WellFormed(rs) && 0 <= lo < hi < TWO64 && j < |rs|
    requires Walking(w, rs, lo, hi, j) && Interior(rs[j], lo, hi)
    ensures (w.vals, w.unmapped as int) == UnmapRange(rs, lo, hi, false)
    ensures w.vals == rs && !w.used
  {
    InteriorIsAlone(rs, j, lo, hi);
  }

  lemma {:induction false} PassBound(w: Walk, rs: seq<Range>, lo: int, hi: int, j: nat)
    requires WellFormed(rs) && 0 <= lo < hi < TWO64 && j <= |rs|
    requires w.unmapped == SharedAll(rs[..j], lo, hi)
    ensures w.unmapped < TWO64
  {
    assert WellFormed(rs[..j]);
    SharedBound(rs[..j], lo, hi);
  }

  lemma {:induction false} SharedBound(rs: seq<Range>, lo: int, hi: int)
    requires WellFormed(rs) && 0 <= lo < hi < TWO64
    ensures SharedAll(rs, lo, hi) <= hi - lo
  {
    SharedCounts(rs, lo, hi);
    IntervalSize(lo, hi);
    SubsetSize(View(rs).Keys * Interval(lo, hi), Interval(lo, hi));
  }

  lemma SubsetSize(a: set<int>, b: set<int>)
    requires a <= b
    ensures |a| <= |b|
  {
    assert b == a + (b - a);
  }

  // ---------------------------------------------------------------- the domain

  class Domain {
    var mappings: seq<Mapping>
    ghost var owned: set<Mapping>
    ghost var allocs: nat
    ghost var frees: nat

    ghost predicate Valid()
      reads this, mappings
    {
      && Distinct(mappings)
      && WellFormed(Values(mappings))
      && owned == Members(mappings)
      && allocs == frees + |mappings|
    }

    constructor ()
      ensures Valid() && mappings == [] && View(Values(mappings)) == map[]
    {
      mappings, owned, allocs, frees := [], {}, 0, 0;
      new;
      assert Values([]) == [];
    }

    /** kzalloc: a zeroed node, or null. */
    method Allocate(succeed: bool) returns (node: Mapping?)
      modifies this`owned, this`allocs
      ensures !succeed ==> node == null && owned == old(owned) && allocs == old(allocs)
      ensures succeed ==> node != null && fresh(node) && owned == old(owned) + {node} && allocs == old(allocs) + 1
    {
      node := null;
      if succeed {
        node := new Mapping();
        owned, allocs := owned + {node}, allocs + 1;
      }
    }

    /** kfree: the node must not have been given back before; null is ignored. */
    method Release(node: Mapping?)
      requires node != null ==> node in owned
      modifies this`owned, this`frees
      ensures node == null ==> owned == old(owned) && frees == old(frees)
      ensures node != null ==> owned == old(owned) - {node} && frees == old(frees) + 1
    {
      if node != null {
        owned, frees := owned - {node}, frees + 1;
      }
    }

    method ReleaseAll(nodes: seq<Mapping>)
      requires Distinct(nodes) && Members(nodes) <= owned
      modifies this`owned, this`frees
      ensures owned == old(owned) - Members(nodes) && frees == old(frees) + |nodes|
    {
      var k := 0;
      while k < |nodes|
        invariant 0 <= k <= |nodes|
        invariant owned == old(owned) - Members(nodes[..k]) && frees == old(frees) + k
      {
        assert nodes[k] !in Members(nodes[..k]) && nodes[k] in Members(nodes);
        assert Members(nodes[..k + 1]) == Members(nodes[..k]) + {nodes[k]};
        Release(nodes[k]);
        k := k + 1;
      }
      assert nodes[..k] == nodes;
    }

    /** fake_iommu_map_pages. */
    method MapPages(iova: Uint64, paddr: Uint64, pgsize: Uint64, pgcount: Uint64, alloc: bool)
      returns (err: Errno, mapped: Uint64)
      requires Valid()
      modifies this
      ensures Valid()
      ensures (Values(mappings), err) == MapList(old(Values(mappings)), iova, paddr, pgsize, pgcount, alloc)
      ensures mapped == if err == Success then pgsize * pgcount else 0
      ensures forall m :: m in mappings ==> m in old(mappings) || fresh(m)
    {
      ghost var rs := Values(mappings);
      mapped := 0;
      if BadSize(pgsize, pgcount) { return EINVAL, mapped; }
      var size := Bytes(pgsize, pgcount);
      if AddUint64(iova, size) < iova { return EINVAL, mapped; }
      var node := Allocate(alloc);
      if node == null { return ENOMEM, mapped; }
      node.iova, node.paddr, node.size := iova, paddr, size;
      var i := 0;
      while i < |mappings|
        invariant 0 <= i <= |mappings|
        invariant forall k :: 0 <= k < i ==> !Overlaps(rs[k], iova, iova + size)
      {
        var m := mappings[i];
        assert rs[i] == m.Value() && Proper(rs[i]);
        if iova < AddUint64(m.iova, m.size) && m.iova < AddUint64(iova, size) {
          assert Overlaps(rs[i], iova, iova + size);
          Release(node);
          assert Values(mappings) == rs;
          return EBUSY, mapped;
        }
        i := i + 1;
      }
      mappings := mappings + [node];
      assert Values(mappings) == rs + [node.Value()];
      assert owned == Members(mappings);
      MapAddsBytes(rs, node.Value());
      return Success, size;
    }

    /** Every node in hand is on the list, on the free list, or the spare. */
    ghost predicate Accounted(freeList: seq<Mapping>, spare: Mapping?)
      reads this
    {
      && Distinct(mappings) && Distinct(freeList)
      && Members(mappings) !! Members(freeList)
      && (spare != null ==> spare !in mappings && spare !in freeList)
      && owned == Members(mappings) + Members(freeList) + (if spare == null then {} else {spare})
      && allocs == frees + |mappings| + |freeList| + (if spare == null then 0 else 1)
    }

    /** Unlinks the `i`-th node and puts it on the free list. */
    method Unlink(i: nat, freeList: seq<Mapping>, ghost spare: Mapping?) returns (freed: seq<Mapping>)
      requires i < |mappings| && Accounted(freeList, spare)
      modifies this`mappings
      ensures Accounted(freed, spare) && mappings == old(mappings[..i] + mappings[i + 1..])
      ensures Values(mappings) == old(Values(mappings)[..i] + Values(mappings)[i + 1..])
    {
      var m := mappings[i];
      assert mappings == mappings[..i] + [m] + mappings[i + 1..];
      mappings := mappings[..i] + mappings[i + 1..];
      freed := [m] + freeList;
      assert Members(old(mappings)) == Members(mappings) + {m};
      assert Members(freed) == Members(freeList) + {m};
    }

    /** Rewrites the `i`-th node's fields. */
    method Reshape(i: nat, iova: Uint64, paddr: Uint64, size: Uint64)
      requires i < |mappings| && Distinct(mappings)
      modifies mappings[i]
      ensures Values(mappings) == old(Values(mappings))[i := Range(iova, paddr, size)]
    {
      var m := mappings[i];
      m.iova, m.paddr, m.size := iova, paddr, size;
    }

    /** Fills the spare node and appends it to the list. */
    method Append(spare: Mapping, iova: Uint64, paddr: Uint64, size: Uint64, ghost freeList: seq<Mapping>)
      requires Accounted(freeList, spare)
      modifies this`mappings, spare
      ensures Accounted(freeList, null) && mappings == old(mappings) + [spare]
      ensures Values(mappings) == old(Values(mappings)) + [Range(iova, paddr, size)]
    {
      spare.iova, spare.paddr, spare.size := iova, paddr, size;
      mappings := mappings + [spare];
      assert Members(mappings) == Members(old(mappings)) + {spare};
    }

    /** One node of the walk.  `ok` is false when the node needs a split and no
        spare node is left; then nothing changes. */
    method Visit(start: Uint64, end: Uint64, i: nat, unmapped: Uint64, spare: Mapping?, freeList: seq<Mapping>)
      returns (ok: bool, i': nat, unmapped': Uint64, spare': Mapping?, freeList': seq<Mapping>)
      requires start < end && i < |mappings| && Accounted(freeList, spare)
      requires Proper(mappings[i].Value())
      requires unmapped + Shared(mappings[i].Value(), start, end) < TWO64
      modifies this`mappings, mappings[i], spare
      ensures Accounted(freeList', spare')
      ensures forall m :: m in mappings ==> m in old(mappings) || m == spare
      ensures ok <==> !(Interior(old(mappings[i].Value()), start, end) && spare == null)
      ensures ok ==> spare' == if Interior(old(mappings[i].Value()), start, end) then null else spare
      ensures ok ==> var w := Pass(Walk(old(Values(mappings)), i, false, unmapped, false), start, end);
                     Values(mappings) == w.vals && i' == w.i && unmapped' == w.unmapped
      ensures !ok ==> Values(mappings) == old(Values(mappings)) && unmapped' == unmapped
    {
      ok, i', unmapped', spare', freeList' := true, i + 1, unmapped, spare, freeList;
      var m := mappings[i];
      ghost var r := m.Value();
      assert Values(mappings)[i] == r;
      var mStart, mEnd := m.iova, AddUint64(m.iova, m.size);
      assert mEnd == End(r);
      if end <= mStart || mEnd <= start {
        assert Keep(r, start, end) == [r] && Split(r, start, end) == [];
        return;
      }
      var overlapStart := if mStart <= start then start else mStart;
      var overlapEnd := if mEnd <= end then mEnd else end;
      if overlapStart == mStart && overlapEnd == mEnd {
        assert Keep(r, start, end) == [] && Split(r, start, end) == [];
        freeList' := Unlink(i, freeList, spare);
        i' := i;
      } else if overlapStart == mStart {
        assert Split(r, start, end) == [];
        Reshape(i, overlapEnd, AddUint64(m.paddr, overlapEnd - mStart), mEnd - overlapEnd);
      } else if overlapEnd == mEnd {
        assert Split(r, start, end) == [];
        Reshape(i, mStart, m.paddr, overlapStart - mStart);
      } else if spare != null {
        var paddr := m.paddr;
        Reshape(i, mStart, paddr, overlapStart - mStart);
        Append(spare, overlapEnd, AddUint64(paddr, overlapEnd - mStart), mEnd - overlapEnd, freeList);
        spare' := null;
      } else {
        ok := false;
        return;
      }
      unmapped' := AddUint64(unmapped, overlapEnd - overlapStart);
    }

    /** The loop invariant of the walk: `w` is the state on values, `w.used`
        tells whether the allocated `node` has become part of the list. */
    ghost predicate Turning(w: Walk, rs: seq<Range>, lo: int, hi: int, j: nat,
                            freeList: seq<Mapping>, spare: Mapping?, node: Mapping?)
      requires WellFormed(rs) && 0 <= lo < hi < TWO64
      reads this, mappings
    {
      && Accounted(freeList, spare)
      && Values(mappings) == w.vals
      && Walking(w, rs, lo, hi, j)
      && (if w.used then node != null && spare == null else spare == node)
    }

    /** One turn of the walk; `ok` is false when it has to stop for want of a node. */
    method Turn(start: Uint64, end: Uint64, i: nat, unmapped: Uint64, spare: Mapping?, freeList: seq<Mapping>,
                ghost w: Walk, ghost rs: seq<Range>, ghost j: nat, ghost node: Mapping?)
      returns (ok: bool, i': nat, unmapped': Uint64, spare': Mapping?, freeList': seq<Mapping>)
      requires start < end && WellFormed(rs) && Turning(w, rs, start, end, j, freeList, spare, node)
      requires !w.finished && w.i == i && w.unmapped == unmapped && i < |mappings| && Proper(w.vals[i])
      modifies this`mappings, mappings[i], spare
      ensures forall m :: m in mappings ==> m in old(mappings) || m == node
      ensures ok ==> var w' := Pass(w, start, end);
                     && Turning(w', rs, start, end, if j < |rs| then j + 1 else j, freeList', spare', node)
                     && i' == w'.i && unmapped' == w'.unmapped && (j == |rs| ==> w'.finished)
      ensures !ok ==> node == null && Accounted(freeList', spare')
                      && (Values(mappings), unmapped' as int) == UnmapRange(rs, start, end, false)
                      && Values(mappings) == rs
    {
      TurnIsSound(w, rs, start, end, j);
      assert mappings[i].Value() == w.vals[i];
      ok, i', unmapped', spare', freeList' := Visit(start, end, i, unmapped, spare, freeList);
      if !ok {
        WalkStarved(w, rs, start, end, j);
      }
    }

    /** The walk of fake_iommu_unmap_pages.  It fetches the successor before it
        acts on a node, so a split node appended behind the last node is not
        visited. */
    method WalkRange(start: Uint64, end: Uint64, node: Mapping?)
      returns (unmapped: Uint64, spare: Mapping?, freeList: seq<Mapping>)
      requires start < end && Accounted([], node) && WellFormed(Values(mappings))
      modifies this`mappings, mappings, node
      ensures Accounted(freeList, spare)
      ensures forall m :: m in mappings ==> m in old(mappings) || m == node
      ensures (Values(mappings), unmapped as int) == UnmapRange(old(Values(mappings)), start, end, node != null)
      ensures WellFormed(Values(mappings))
    {
      ghost var rs := Values(mappings);
      unmapped, spare, freeList := 0, node, [];
      var i: nat, finished := 0, |mappings| == 0;
      ghost var j, w := 0, Walk(rs, i, finished, unmapped, false);
      WalkBegins(rs, start, end);
      while !finished
        invariant Turning(w, rs, start, end, j, freeList, spare, node)
        invariant w.i == i && w.finished == finished && w.unmapped == unmapped
        invariant forall m :: m in mappings ==> m in old(mappings) || m == node
        decreases |rs| - j, if finished then 0 else 1
      {
        CursorNode(w, rs, start, end, j);
        assert mappings[i] in mappings;
        var ok, last := true, i + 1 == |mappings|;
        ok, i, unmapped, spare, freeList := Turn(start, end, i, unmapped, spare, freeList, w, rs, j, node);
        if !ok { return; }
        finished := last;
        w := Pass(w, start, end);
        j := if j < |rs| then j + 1 else j;
      }
      WalkDone(w, rs, start, end, j, node != null);
    }

    /** fake_iommu_unmap_pages. */
    method UnmapPages(iova: Uint64, pgsize: Uint64, pgcount: Uint64, alloc: bool) returns (unmapped: Uint64)
      requires Valid()
      modifies this, mappings
      ensures Valid()
      ensures (Values(mappings), unmapped as int) == UnmapList(old(Values(mappings)), iova, pgsize, pgcount, alloc)
      ensures forall m :: m in mappings ==> m in old(mappings) || fresh(m)
    {
      ghost var rs := Values(mappings);
      unmapped := 0;
      if BadSize(pgsize, pgcount) { return 0; }
      var start, size := iova, Bytes(pgsize, pgcount);
      var end := AddUint64(start, size);
      if end < start { return 0; }
      var spare := Allocate(alloc);
      var freeList;
      assert Values(mappings) == rs;
      unmapped, spare, freeList := WalkRange(start, end, spare);
      ReleaseAll(freeList);
      Release(spare);
    }

    /** fake_iommu_iova_to_phys: the byte map's entry, 0 where it has none. */
    method IovaToPhys(iova: Uint64) returns (paddr: Uint64)
      requires Valid()
      ensures paddr == if iova in View(Values(mappings)) then View(Values(mappings))[iova] else 0
    {
      ghost var rs := Values(mappings);
      var i := 0;
      while i < |mappings|
        invariant 0 <= i <= |mappings|
        invariant forall k :: 0 <= k < i ==> !Covers(rs[k], iova)
      {
        var m := mappings[i];
        assert rs[i] == m.Value() && Proper(rs[i]);
        if iova >= m.iova && iova < AddUint64(m.iova, m.size) {
          LookupAnyOrder(rs, i, iova);
          return AddUint64(m.paddr, iova - m.iova);
        }
        i := i + 1;
      }
      LookupFinds(rs, iova);
      return 0;
    }

    /** fake_iommu_domain_free: every node goes back to the allocator. */
    method Free()
      requires Valid()
      modifies this
      ensures mappings == [] && owned == {} && allocs == frees && allocs == old(allocs)
    {
      var freeList := mappings;
      mappings := [];
      ReleaseAll(freeList);
    }

    /** The legacy callback fake_iommu_map; its size check never fires. */
    method MapLegacy(iova: Uint64, paddr: Uint64, size: Uint64, alloc: bool) returns (err: Errno)
      requires Valid()
      modifies this
      ensures Valid() && err != EIO
      ensures (Values(mappings), err) == MapList(old(Values(mappings)), iova, paddr, size, 1, alloc)
    {
      var mapped;
      err, mapped := MapPages(iova, paddr, size, 1, alloc);
      if err == Success && mapped != size { err := EIO; }
    }

    /** The legacy callback fake_iommu_unmap. */
    method UnmapLegacy(iova: Uint64, size: Uint64, alloc: bool) returns (unmapped: Uint64)
      requires Valid()
      modifies this, mappings
      ensures Valid()
      ensures (Values(mappings), unmapped as int) == UnmapList(old(Values(mappings)), iova, size, 1, alloc)
    {
      unmapped := UnmapPages(iova, size, 1, alloc);
    }

    /** One call of a run. */
    method Apply(op: Op) returns (reply: Reply)
      requires Valid()
      modifies this, owned
      ensures Valid() && (Values(mappings), reply) == Step(old(Values(mappings)), op)
      ensures fresh(owned - old(owned))
    {
      assert forall m :: m in mappings ==> m in owned;
      match op {
        case MapOp(iova, paddr, pgsize, pgcount, alloc) =>
          var err, mapped := MapPages(iova, paddr, pgsize, pgcount, alloc);
          reply := Mapped(err, mapped);
        case UnmapOp(iova, pgsize, pgcount, alloc) =>
          var n := UnmapPages(iova, pgsize, pgcount, alloc);
          reply := Unmapped(n);
      }
    }
  }

  /** A run of calls on a new domain gives the list and replies of `Run`. */
  method Perform(ops: seq<Op>) returns (d: Domain, replies: seq<Reply>)
    ensures d.Valid() && (Values(d.mappings), replies) == Run(ops)
  {
    d := new Domain();
    replies := [];
    assert Values(d.mappings) == [] && ops[..0] == [];
    for k := 0 to |ops|
      invariant fresh(d) && fresh(d.owned) && d.Valid()
      invariant (Values(d.mappings), replies) == Run(ops[..k])
    {
      assert ops[..k + 1][..k] == ops[..k] && ops[..k + 1][k] == ops[k];
      var reply := d.Apply(ops[k]);
      replies := replies + [reply];
    }
    assert ops[..|ops|] == ops;
  }
}
