/** The fake IOMMU's interval map.

    A domain holds a list of nodes, each translating the half-open interval
    `[iova, iova + size)` to physical addresses starting at `paddr`.  The list
    is mutated in place by `MapPages` and `UnmapPages`; this module proves that
    every run of those calls refines a plain byte-to-byte map.

    Addresses and sizes are 64-bit words.  Wherever the driver adds two words
    the model adds them modulo 2^64 (`AddUint64`).  Each spinlock section is one
    atomic step, and the outcome of each allocation is a parameter. */
module Iommu {
  import opened Options
  import opened Words

  const SIZE_MAX: nat := TWO64 - 1

  datatype Errno = Success | EINVAL | ENOMEM | EBUSY | EIO

  // ---------------------------------------------------------------- argument guard

  /** The guard shared by map and unmap: zero sizes and overflowing products. */
  predicate BadSize(pgsize: Uint64, pgcount: Uint64) {
    pgsize == 0 || pgcount == 0 || pgsize > SIZE_MAX / pgcount
  }

  /** The division guard rejects exactly the products that do not fit a word. */
  lemma GuardIsExact(pgsize: Uint64, pgcount: Uint64)
    ensures BadSize(pgsize, pgcount) <==>
            (pgsize == 0 || pgcount == 0 || pgsize * pgcount > SIZE_MAX)
  {
    if pgcount > 0 {
      var q := SIZE_MAX / pgcount;
      DivBounds(SIZE_MAX, pgcount);
      if pgsize > q { Monotone(q + 1, pgsize, pgcount); } else { Monotone(pgsize, q, pgcount); }
    }
  }

  /** The byte count of a call whose arguments pass the guard. */
  function Bytes(pgsize: Uint64, pgcount: Uint64): (size: Uint64)
    requires !BadSize(pgsize, pgcount)
    ensures 0 < size
  {
    GuardIsExact(pgsize, pgcount);
    assert pgsize * pgcount > 0;
    pgsize * pgcount
  }

  /** The range `[start, start + size)` runs past the end of the address space. */
  predicate Wraps(start: Uint64, size: Uint64) {
    AddUint64(start, size) < start
  }

  // ---------------------------------------------------------------- the abstract value

  datatype Range = Range(iova: Uint64, paddr: Uint64, size: Uint64)

  /** Non-empty and not wrapping. */
  predicate Proper(r: Range) {
    0 < r.size && r.iova + r.size < TWO64
  }

  predicate Covers(r: Range, a: int) {
    r.iova <= a < r.iova + r.size
  }

  /** The physical address of the covered byte `a`. */
  function Target(r: Range, a: int): Uint64
    requires Covers(r, a)
  {
    AddUint64(r.paddr, a - r.iova)
  }

  predicate Apart(r: Range, q: Range) {
    r.iova + r.size <= q.iova || q.iova + q.size <= r.iova
  }

  /** The list invariant: every range proper, every two ranges disjoint. */
  ghost predicate WellFormed(rs: seq<Range>) {
    && (forall i {:trigger Proper(rs[i])} :: 0 <= i < |rs| ==> Proper(rs[i]))
    && (forall i, j {:trigger Apart(rs[i], rs[j])} :: 0 <= i < j < |rs| ==> Apart(rs[i], rs[j]))
  }

  /** First-match lookup along the list. */
  function Lookup(rs: seq<Range>, a: int): Option<Uint64> {
    if rs == [] then None
    else if Covers(rs[0], a) then Some(Target(rs[0], a))
    else Lookup(rs[1..], a)
  }

  /** The byte map a list denotes. */
  ghost function View(rs: seq<Range>): map<int, int> {
    map a: int | 0 <= a < TWO64 && Lookup(rs, a).Some? :: Lookup(rs, a).value
  }

  predicate Between(lo: int, a: int, hi: int) { lo <= a < hi }

  /** The bytes of `[lo, hi)`. */
  ghost function Interval(lo: int, hi: int): set<int> {
    set a: int | lo <= a < hi && Between(lo, a, hi)
  }

  /** The bytes of a byte map in `[lo, hi)`, and the byte map without them. */
  ghost function Hit(m: map<int, int>, lo: int, hi: int): set<int> { set a | a in m && lo <= a < hi }
  ghost function Cut(m: map<int, int>, lo: int, hi: int): map<int, int> { map a | a in m && !(lo <= a < hi) :: m[a] }

  lemma {:induction false} LookupAppend(xs: seq<Range>, ys: seq<Range>, a: int)
    ensures Lookup(xs + ys, a) == if Lookup(xs, a).Some? then Lookup(xs, a) else Lookup(ys, a)
  {
    if xs == [] {
      assert xs + ys == ys;
    } else {
      assert (xs + ys)[1..] == xs[1..] + ys;
      LookupAppend(xs[1..], ys, a);
    }
  }

  lemma {:induction false} LookupFinds(rs: seq<Range>, a: int)
    ensures Lookup(rs, a).Some? <==> exists i :: 0 <= i < |rs| && Covers(rs[i], a)
  {
    if rs != [] {
      LookupFinds(rs[1..], a);
      if exists i :: 0 <= i < |rs| && Covers(rs[i], a) {
        var i :| 0 <= i < |rs| && Covers(rs[i], a);
        if i > 0 { assert rs[1..][i - 1] == rs[i]; }
      }
    }
  }

  /** In a well-formed list the answer does not depend on the list's order:
      any node that covers `a` gives it. */
  lemma {:induction false} LookupAnyOrder(rs: seq<Range>, i: nat, a: int)
    requires WellFormed(rs) && i < |rs| && Covers(rs[i], a)
    ensures Lookup(rs, a) == Some(Target(rs[i], a))
  {
    if i > 0 {
      assert Apart(rs[0], rs[i]);
      LookupAnyOrder(rs[1..], i - 1, a);
    }
  }

  // ---------------------------------------------------------------- map

  predicate Overlaps(r: Range, lo: int, hi: int) {
    lo < r.iova + r.size && r.iova < hi
  }

  predicate AnyOverlap(rs: seq<Range>, lo: int, hi: int) {
    exists i :: 0 <= i < |rs| && Overlaps(rs[i], lo, hi)
  }

  /** What `MapPages` does to the list and answers. */
  function MapList(rs: seq<Range>, iova: Uint64, paddr: Uint64, pgsize: Uint64, pgcount: Uint64, alloc: bool)
    : (res: (seq<Range>, Errno))
  {
    if BadSize(pgsize, pgcount) || Wraps(iova, Bytes(pgsize, pgcount)) then (rs, EINVAL)
    else if !alloc then (rs, ENOMEM)
    else
      var size := Bytes(pgsize, pgcount);
      if AnyOverlap(rs, iova, iova + size) then (rs, EBUSY)
      else (rs + [Range(iova, paddr, size)], Success)
  }

  /** The overlap test fails exactly when some byte of the request is mapped. */
  lemma OverlapIsTaken(rs: seq<Range>, lo: int, hi: int)
    requires WellFormed(rs) && 0 <= lo < hi <= TWO64
    ensures AnyOverlap(rs, lo, hi) <==> !(View(rs).Keys !! Interval(lo, hi))
  {
    if AnyOverlap(rs, lo, hi) {
      var i :| 0 <= i < |rs| && Overlaps(rs[i], lo, hi);
      assert Proper(rs[i]);
      var a := if lo <= rs[i].iova then rs[i].iova else lo;
      assert Covers(rs[i], a);
      LookupFinds(rs, a);
      assert a in View(rs).Keys && a in Interval(lo, hi);
    } else {
      forall a: int | a in Interval(lo, hi) ensures a !in View(rs).Keys {
        LookupFinds(rs, a);
        assert forall i :: 0 <= i < |rs| ==> !Overlaps(rs[i], lo, hi);
      }
    }
  }

  /** The byte map of one range. */
  ghost function Fresh(r: Range): map<int, int> {
    map a: int | r.iova <= a < r.iova + r.size && Covers(r, a) :: Target(r, a)
  }

  lemma MapAddsBytes(rs: seq<Range>, r: Range)
    requires WellFormed(rs) && Proper(r) && !AnyOverlap(rs, r.iova, r.iova + r.size)
    ensures WellFormed(rs + [r])
    ensures View(rs + [r]) == View(rs) + Fresh(r)
  {
    assert forall i :: 0 <= i < |rs| ==> !Overlaps(rs[i], r.iova, r.iova + r.size);
    OverlapIsTaken(rs, r.iova, r.iova + r.size);
    forall a: int
      ensures Lookup(rs + [r], a) == if Covers(r, a) then Some(Target(r, a)) else Lookup(rs, a)
    {
      LookupSnoc(rs, r, a);
    }
  }

  // ---------------------------------------------------------------- unmap

  function End(r: Range): int { r.iova + r.size }

  predicate Outside(r: Range, lo: int, hi: int) {
    hi <= r.iova || End(r) <= lo
  }

  /** `[lo, hi)` lies strictly inside `r`: unmapping it leaves two pieces. */
  predicate Interior(r: Range, lo: int, hi: int) {
    !Outside(r, lo, hi) && r.iova < lo && hi < End(r)
  }

  /** What stays in `r`'s place. */
  function Keep(r: Range, lo: int, hi: int): (k: seq<Range>)
    requires Proper(r) && 0 <= lo < hi < TWO64
  {
    if Outside(r, lo, hi) then [r]
    else if r.iova < lo then [r.(size := lo - r.iova)]
    else if hi < End(r) then [Range(hi, AddUint64(r.paddr, hi - r.iova), End(r) - hi)]
    else []
  }

  /** The piece that goes to the tail of the list. */
  function Split(r: Range, lo: int, hi: int): (k: seq<Range>)
    requires Proper(r) && 0 <= lo < hi < TWO64
  {
    if Interior(r, lo, hi) then [Range(hi, AddUint64(r.paddr, hi - r.iova), End(r) - hi)] else []
  }

  function Min(a: int, b: int): int { if a <= b then a else b }
  function Max(a: int, b: int): int { if a <= b then b else a }

  /** Number of bytes `r` shares with `[lo, hi)`. */
  function Shared(r: Range, lo: int, hi: int): nat {
    if Outside(r, lo, hi) || hi <= lo || r.size == 0 then 0 else Min(hi, End(r)) - Max(lo, r.iova)
  }

  function KeepAll(rs: seq<Range>, lo: int, hi: int): seq<Range>
    requires (forall i :: 0 <= i < |rs| ==> Proper(rs[i])) && 0 <= lo < hi < TWO64
  {
    if rs == [] then [] else KeepAll(rs[..|rs| - 1], lo, hi) + Keep(rs[|rs| - 1], lo, hi)
  }

  function SplitAll(rs: seq<Range>, lo: int, hi: int): seq<Range>
    requires (forall i :: 0 <= i < |rs| ==> Proper(rs[i])) && 0 <= lo < hi < TWO64
  {
    if rs == [] then [] else SplitAll(rs[..|rs| - 1], lo, hi) + Split(rs[|rs| - 1], lo, hi)
  }

  function SharedAll(rs: seq<Range>, lo: int, hi: int): nat {
    if rs == [] then 0 else SharedAll(rs[..|rs| - 1], lo, hi) + Shared(rs[|rs| - 1], lo, hi)
  }

  predicate NeedsSplit(rs: seq<Range>, lo: int, hi: int) {
    exists i :: 0 <= i < |rs| && Interior(rs[i], lo, hi)
  }

  /** Removes `[lo, hi)`, unless that needs a split node and none is there. */
  function UnmapRange(rs: seq<Range>, lo: int, hi: int, alloc: bool): (res: (seq<Range>, int))
    requires (forall i :: 0 <= i < |rs| ==> Proper(rs[i])) && 0 <= lo < hi < TWO64
  {
    if NeedsSplit(rs, lo, hi) && !alloc then (rs, 0)
    else (KeepAll(rs, lo, hi) + SplitAll(rs, lo, hi), SharedAll(rs, lo, hi))
  }

  /** What `UnmapPages` does to the list and answers. */
  function UnmapList(rs: seq<Range>, iova: Uint64, pgsize: Uint64, pgcount: Uint64, alloc: bool)
    : (res: (seq<Range>, int))
    requires forall i :: 0 <= i < |rs| ==> Proper(rs[i])
  {
    if BadSize(pgsize, pgcount) || Wraps(iova, Bytes(pgsize, pgcount)) then (rs, 0)
    else UnmapRange(rs, iova, iova + Bytes(pgsize, pgcount), alloc)
  }

  /** Appending one node: a byte it covers is covered by no earlier node. */
  lemma {:induction false} LookupSnoc(init: seq<Range>, r: Range, a: int)
    requires WellFormed(init + [r])
    ensures WellFormed(init) && Proper(r)
    ensures Covers(r, a) ==> Lookup(init, a) == None
    ensures Lookup(init + [r], a) == if Covers(r, a) then Some(Target(r, a)) else Lookup(init, a)
  {
    WellFormedInit(init, r);
    LookupAppend(init, [r], a);
    LookupFinds(init, a);
  }

  /** One range: a byte outside `[lo, hi)` survives in exactly one piece. */
  lemma {:induction false} CutOne(r: Range, lo: int, hi: int, a: int)
    requires Proper(r) && 0 <= lo < hi < TWO64
    ensures var k, s := Lookup(Keep(r, lo, hi), a), Lookup(Split(r, lo, hi), a);
            if Covers(r, a) && !Between(lo, a, hi)
            then (k == Some(Target(r, a)) && s == None) || (k == None && s == Some(Target(r, a)))
            else k == None && s == None
  {
  }

  /** Each byte keeps its translation, in one piece, or loses it inside `[lo, hi)`. */
  lemma {:induction false} CutLookup(rs: seq<Range>, lo: int, hi: int, a: int)
    requires WellFormed(rs) && 0 <= lo < hi < TWO64
    ensures var k, s := Lookup(KeepAll(rs, lo, hi), a), Lookup(SplitAll(rs, lo, hi), a);
            && (k == None || s == None)
            && (if k.Some? then k else s) == if Between(lo, a, hi) then None else Lookup(rs, a)
  {
    if rs != [] {
      var init, r := rs[..|rs| - 1], rs[|rs| - 1];
      assert rs == init + [r];
      LookupSnoc(init, r, a);
      CutLookup(init, lo, hi, a);
      CutOne(r, lo, hi, a);
      LookupAppend(KeepAll(init, lo, hi), Keep(r, lo, hi), a);
      LookupAppend(SplitAll(init, lo, hi), Split(r, lo, hi), a);
    }
  }

  /** Every surviving piece lies inside the range it came from. */
  predicate Within(q: Range, r: Range) {
    Proper(q) && r.iova <= q.iova && End(q) <= End(r)
  }

  lemma KeepWithin(r: Range, lo: int, hi: int)
    requires Proper(r) && 0 <= lo < hi < TWO64
    ensures |Keep(r, lo, hi)| <= 1 && forall q :: q in Keep(r, lo, hi) ==> Within(q, r)
  {
  }

  lemma {:induction false} PiecesWithin(rs: seq<Range>, lo: int, hi: int)
    requires WellFormed(rs) && 0 <= lo < hi < TWO64
    ensures forall q :: q in KeepAll(rs, lo, hi) ==> exists i :: 0 <= i < |rs| && Within(q, rs[i])
    ensures WellFormed(KeepAll(rs, lo, hi))
  {
    if rs != [] {
      var init, r := rs[..|rs| - 1], rs[|rs| - 1];
      PiecesWithin(init, lo, hi);
      KeepWithin(r, lo, hi);
      var k := KeepAll(init, lo, hi);
      forall q | q in k
        ensures exists i :: 0 <= i < |rs| && Within(q, rs[i])
        ensures Apart(q, r)
      {
        var i :| 0 <= i < |init| && Within(q, init[i]);
        assert rs[i] == init[i] && Apart(rs[i], rs[|rs| - 1]);
      }
      forall q | q in Keep(r, lo, hi) ensures exists i :: 0 <= i < |rs| && Within(q, rs[i]) {
        assert Within(q, rs[|rs| - 1]);
      }
      var k' := KeepAll(rs, lo, hi);
      forall i, j | 0 <= i < j < |k'| ensures Apart(k'[i], k'[j]) {
        assert k'[i] == k[i] && k[i] in k;
        if j == |k| { assert k'[j] in Keep(r, lo, hi); }
      }
      forall i | 0 <= i < |k'| ensures Proper(k'[i]) { assert k'[i] in k'; }
    }
  }

  /** If one range strictly contains `[lo, hi)`, no other range touches it. */
  lemma {:induction false} UntouchedOutside(rs: seq<Range>, lo: int, hi: int)
    requires WellFormed(rs) && 0 <= lo < hi < TWO64
    requires forall i :: 0 <= i < |rs| ==> Outside(rs[i], lo, hi)
    ensures KeepAll(rs, lo, hi) == rs && SplitAll(rs, lo, hi) == [] && SharedAll(rs, lo, hi) == 0
  {
    if rs != [] {
      var init, r := rs[..|rs| - 1], rs[|rs| - 1];
      UntouchedOutside(init, lo, hi);
      assert Outside(rs[|rs| - 1], lo, hi);
      assert rs == init + [r];
    }
  }

  /** Every split piece is proper and starts at `hi`. */
  lemma {:induction false} SplitStarts(rs: seq<Range>, lo: int, hi: int)
    requires WellFormed(rs) && 0 <= lo < hi < TWO64
    ensures forall q :: q in SplitAll(rs, lo, hi) ==> Proper(q) && q.iova == hi
  {
    if rs != [] {
      var init, r := rs[..|rs| - 1], rs[|rs| - 1];
      assert Proper(rs[|rs| - 1]) && rs == init + [r];
      WellFormedInit(init, r);
      SplitStarts(init, lo, hi);
    }
  }

  lemma WellFormedInit(init: seq<Range>, r: Range)
    requires WellFormed(init + [r])
    ensures WellFormed(init) && Proper(r) && forall i :: 0 <= i < |init| ==> Apart(init[i], r)
  {
    var rs := init + [r];
    assert Proper(rs[|init|]);
    forall i | 0 <= i < |init| ensures Proper(init[i]) && Apart(init[i], r) {
      assert Proper(rs[i]) && Apart(rs[i], rs[|init|]);
    }
    forall i, j | 0 <= i < j < |init| ensures Apart(init[i], init[j]) {
      assert Apart(rs[i], rs[j]);
    }
  }

  /** At most one range is split. */
  lemma {:induction false} OneSplit(rs: seq<Range>, lo: int, hi: int)
    requires WellFormed(rs) && 0 <= lo < hi < TWO64
    ensures |SplitAll(rs, lo, hi)| == if NeedsSplit(rs, lo, hi) then 1 else 0
  {
    if rs != [] {
      var init, r := rs[..|rs| - 1], rs[|rs| - 1];
      assert rs == init + [r];
      WellFormedInit(init, r);
      NeedsSplitSnoc(init, r, lo, hi);
      if Interior(r, lo, hi) {
        UntouchedOutside(init, lo, hi);
      } else {
        OneSplit(init, lo, hi);
      }
    }
  }

  lemma NeedsSplitSnoc(init: seq<Range>, r: Range, lo: int, hi: int)
    ensures NeedsSplit(init + [r], lo, hi) <==> NeedsSplit(init, lo, hi) || Interior(r, lo, hi)
  {
    var rs := init + [r];
    if NeedsSplit(rs, lo, hi) && !Interior(r, lo, hi) {
      var i :| 0 <= i < |rs| && Interior(rs[i], lo, hi);
      assert Interior(init[i], lo, hi);
    }
    if NeedsSplit(init, lo, hi) {
      var i :| 0 <= i < |init| && Interior(init[i], lo, hi);
      assert Interior(rs[i], lo, hi);
    }
    if Interior(r, lo, hi) {
      assert Interior(rs[|init|], lo, hi);
    }
  }

  /** No kept piece reaches past a split range's end, so the tail stays disjoint. */
  lemma {:induction false} KeepApartFromSplit(rs: seq<Range>, lo: int, hi: int)
    requires WellFormed(rs) && 0 <= lo < hi < TWO64
    ensures WellFormed(KeepAll(rs, lo, hi) + SplitAll(rs, lo, hi))
  {
    PiecesWithin(rs, lo, hi);
    OneSplit(rs, lo, hi);
    SplitStarts(rs, lo, hi);
    var ks, ss := KeepAll(rs, lo, hi), SplitAll(rs, lo, hi);
    if ss != [] {
      var q := ss[0];
      assert q in ss;
      forall j | 0 <= j < |ks| ensures Apart(ks[j], q) {
        if !Apart(ks[j], q) {
          var a := Max(ks[j].iova, q.iova);
          assert Proper(ks[j]);
          assert Covers(ks[j], a) && Covers(q, a);
          CutLookup(rs, lo, hi, a);
          LookupFinds(ks, a);
          LookupFinds(ss, a);
          assert false;
        }
      }
    }
  }

  // ---------------------------------------------------------------- counting bytes

  lemma {:induction false} IntervalSize(lo: int, hi: int)
    requires lo <= hi
    ensures |Interval(lo, hi)| == hi - lo
    decreases hi - lo
  {
    if lo < hi {
      IntervalSize(lo, hi - 1);
      assert Interval(lo, hi) == Interval(lo, hi - 1) + {hi - 1};
    } else {
      assert Interval(lo, hi) == {};
    }
  }

  /** The bytes of `[lo, hi)` in one range. */
  ghost function Mine(r: Range, lo: int, hi: int): set<int> {
    Interval(Max(lo, r.iova), Min(hi, End(r)))
  }

  lemma MineCounts(r: Range, lo: int, hi: int)
    ensures |Mine(r, lo, hi)| == Shared(r, lo, hi)
  {
    if Max(lo, r.iova) <= Min(hi, End(r)) {
      IntervalSize(Max(lo, r.iova), Min(hi, End(r)));
    } else {
      assert Mine(r, lo, hi) == {};
    }
  }

  /** One more node: a byte is mapped by it or by the others, not by both. */
  lemma ByteOfSnoc(init: seq<Range>, r: Range, lo: int, hi: int, a: int)
    requires WellFormed(init + [r]) && 0 <= lo < hi <= TWO64
    ensures a in View(init + [r]).Keys * Interval(lo, hi) <==>
            a in View(init).Keys * Interval(lo, hi) || a in Mine(r, lo, hi)
    ensures !(a in View(init).Keys && a in Mine(r, lo, hi))
  {
    WellFormedInit(init, r);
    LookupSnoc(init, r, a);
  }

  lemma DisjointCount(x: set<int>, y: set<int>)
    requires x !! y
    ensures |x + y| == |x| + |y|
  {
  }

  /** The bytes of `[lo, hi)` that one more node adds. */
  lemma SharedSnoc(init: seq<Range>, r: Range, lo: int, hi: int)
    requires WellFormed(init + [r]) && 0 <= lo < hi <= TWO64
    ensures |View(init + [r]).Keys * Interval(lo, hi)| ==
            |View(init).Keys * Interval(lo, hi)| + Shared(r, lo, hi)
  {
    var all, rest, mine := View(init + [r]).Keys * Interval(lo, hi), View(init).Keys * Interval(lo, hi), Mine(r, lo, hi);
    forall a ensures a in all <==> a in rest || a in mine ensures !(a in rest && a in mine) {
      ByteOfSnoc(init, r, lo, hi, a);
    }
    assert all == rest + mine && rest !! mine;
    DisjointCount(rest, mine);
    MineCounts(r, lo, hi);
  }

  /** The sum of overlaps is the number of mapped bytes in `[lo, hi)`. */
  lemma {:induction false} SharedCounts(rs: seq<Range>, lo: int, hi: int)
    requires WellFormed(rs) && 0 <= lo < hi <= TWO64
    ensures SharedAll(rs, lo, hi) == |View(rs).Keys * Interval(lo, hi)|
  {
    if rs == [] {
      assert View(rs).Keys * Interval(lo, hi) == {};
    } else {
      var init, r := rs[..|rs| - 1], rs[|rs| - 1];
      assert rs == init + [r];
      SharedCounts(init, lo, hi);
      SharedSnoc(init, r, lo, hi);
    }
  }

  lemma {:induction false} UnmapView(rs: seq<Range>, lo: int, hi: int)
    requires WellFormed(rs) && 0 <= lo < hi < TWO64
    ensures View(KeepAll(rs, lo, hi) + SplitAll(rs, lo, hi)) == Cut(View(rs), lo, hi)
  {
    var rs' := KeepAll(rs, lo, hi) + SplitAll(rs, lo, hi);
    forall a: int
      ensures Lookup(rs', a) == if Between(lo, a, hi) then None else Lookup(rs, a)
    {
      LookupAppend(KeepAll(rs, lo, hi), SplitAll(rs, lo, hi), a);
      CutLookup(rs, lo, hi, a);
    }
  }

  lemma WithoutSize(m: map<int, int>, lo: int, hi: int)
    ensures |Cut(m, lo, hi)| == |m| - |m.Keys * Interval(lo, hi)|
  {
    var cut := m.Keys * Interval(lo, hi);
    assert m.Keys == Cut(m, lo, hi).Keys + cut && Cut(m, lo, hi).Keys !! cut;
    assert |m| == |m.Keys| && |Cut(m, lo, hi)| == |Cut(m, lo, hi).Keys|;
  }

  /** Unmapping removes exactly `[lo, hi)` from the byte map, keeps the list
      well formed, and the answer is the number of bytes removed. */
  lemma {:induction false} UnmapCuts(rs: seq<Range>, lo: int, hi: int)
    requires WellFormed(rs) && 0 <= lo < hi < TWO64
    ensures var rs' := KeepAll(rs, lo, hi) + SplitAll(rs, lo, hi);
            && WellFormed(rs')
            && View(rs') == Cut(View(rs), lo, hi)
            && |View(rs')| == |View(rs)| - SharedAll(rs, lo, hi)
  {
    KeepApartFromSplit(rs, lo, hi);
    UnmapView(rs, lo, hi);
    SharedCounts(rs, lo, hi);
    WithoutSize(View(rs), lo, hi);
  }

  // ---------------------------------------------------------------- runs

  datatype Op =
    | MapOp(iova: Uint64, paddr: Uint64, pgsize: Uint64, pgcount: Uint64, alloc: bool)
    | UnmapOp(iova: Uint64, pgsize: Uint64, pgcount: Uint64, alloc: bool)

  datatype Reply = Mapped(err: Errno, bytes: nat) | Unmapped(bytes: nat)

  /** The bytes a call asks for, when its arguments are accepted. */
  function Requested(op: Op): Option<(int, int)> {
    if BadSize(op.pgsize, op.pgcount) || Wraps(op.iova, Bytes(op.pgsize, op.pgcount)) then None
    else Some((op.iova, op.iova + Bytes(op.pgsize, op.pgcount)))
  }

  /** One call on the list. */
  function Step(rs: seq<Range>, op: Op): (seq<Range>, Reply)
    requires forall i :: 0 <= i < |rs| ==> Proper(rs[i])
  {
    match op
    case MapOp(iova, paddr, pgsize, pgcount, alloc) =>
      var (rs', err) := MapList(rs, iova, paddr, pgsize, pgcount, alloc);
      (rs', Mapped(err, if err == Success then Bytes(pgsize, pgcount) else 0))
    case UnmapOp(iova, pgsize, pgcount, alloc) =>
      var (rs', n) := UnmapList(rs, iova, pgsize, pgcount, alloc);
      (rs', Unmapped(n))
  }

  /** The bytes from `lo` up to `hi`, translated in order from `paddr` on. */
  ghost function Laid(paddr: Uint64, lo: int, hi: int): map<int, int> {
    map a: int | lo <= a < hi && Between(lo, a, hi) :: (paddr + (a - lo)) % TWO64
  }

  /** The same call on the byte map, in numbers: the specification.  `size` is
      the number of bytes asked for. */
  ghost function SpecOn(m: map<int, int>, op: Op, size: nat): (map<int, int>, Reply) {
    var lo, hi := op.iova, op.iova + size;
    if size == 0 || hi >= TWO64 then (m, if op.MapOp? then Mapped(EINVAL, 0) else Unmapped(0))
    else if op.UnmapOp? then (Cut(m, lo, hi), Unmapped(|Hit(m, lo, hi)|))
    else if !op.alloc then (m, Mapped(ENOMEM, 0))
    else if Hit(m, lo, hi) != {} then (m, Mapped(EBUSY, 0))
    else (m + Laid(op.paddr, lo, hi), Mapped(Success, size))
  }

  ghost function SpecStep(m: map<int, int>, op: Op): (map<int, int>, Reply) {
    SpecOn(m, op, op.pgsize * op.pgcount)
  }

  /** The split node this call needs could not be allocated. */
  predicate Starved(rs: seq<Range>, op: Op) {
    && op.UnmapOp? && !op.alloc && Requested(op).Some?
    && NeedsSplit(rs, Requested(op).value.0, Requested(op).value.1)
  }

  /** What is asked for is accepted exactly when it is not empty and ends below
      2^64; then it is `pgsize * pgcount` bytes. */
  lemma RequestFits(op: Op)
    ensures var size := op.pgsize * op.pgcount;
            Requested(op) ==
            if size == 0 || op.iova + size >= TWO64 then None else Some((op.iova as int, op.iova + size))
    ensures Requested(op).Some? ==>
              !BadSize(op.pgsize, op.pgcount) && Bytes(op.pgsize, op.pgcount) == op.pgsize * op.pgcount
  {
    GuardIsExact(op.pgsize, op.pgcount);
    ZeroProduct(op.pgsize, op.pgcount);
  }

  lemma ZeroProduct(x: nat, y: nat)
    ensures x * y == 0 <==> x == 0 || y == 0
  {
  }

  function Gained(reply: Reply): nat { if reply.Mapped? then reply.bytes else 0 }
  function Lost(reply: Reply): nat { if reply.Unmapped? then reply.bytes else 0 }

  lemma KeyCount(m: map<int, int>, n: map<int, int>, s: set<int>)
    requires n.Keys == m.Keys + s && m.Keys !! s
    ensures |n| == |m| + |s|
  {
    assert |n| == |n.Keys| && |m| == |m.Keys|;
  }

  lemma FreshKeys(r: Range)
    requires Proper(r)
    ensures Fresh(r).Keys == Interval(r.iova, End(r))
  {
  }

  lemma FreshSize(m: map<int, int>, r: Range)
    requires Proper(r) && m.Keys !! Interval(r.iova, End(r))
    ensures |m + Fresh(r)| == |m| + r.size
  {
    IntervalSize(r.iova, End(r));
    FreshKeys(r);
    KeyCount(m, m + Fresh(r), Interval(r.iova, End(r)));
  }

  /** A request that finds its bytes free. */
  lemma MapIntoFree(rs: seq<Range>, r: Range)
    requires WellFormed(rs) && Proper(r) && !AnyOverlap(rs, r.iova, End(r))
    ensures WellFormed(rs + [r]) && View(rs + [r]) == View(rs) + Fresh(r)
    ensures |View(rs + [r])| == |View(rs)| + r.size
  {
    OverlapIsTaken(rs, r.iova, End(r));
    MapAddsBytes(rs, r);
    FreshSize(View(rs), r);
  }

  /** The request is accepted, allocated and free. */
  predicate Granted(rs: seq<Range>, op: Op) {
    op.MapOp? && Requested(op).Some? && op.alloc && !AnyOverlap(rs, Requested(op).value.0, Requested(op).value.1)
  }

  /** The bytes of a range, in numbers. */
  lemma FreshIs(r: Range)
    requires Proper(r)
    ensures Fresh(r) == Laid(r.paddr, r.iova, r.iova + r.size)
  {
    forall a: int | r.iova <= a < r.iova + r.size ensures Target(r, a) == (r.paddr + (a - r.iova)) % TWO64 {
      WrapIsMod(r.paddr, a - r.iova);
    }
  }

  lemma WrapIsMod(x: Uint64, y: Uint64)
    ensures AddUint64(x, y) == (x + y) % TWO64
  {
  }

  lemma TakenIs(m: map<int, int>, lo: int, hi: int)
    ensures m.Keys * Interval(lo, hi) == Hit(m, lo, hi)
    ensures m.Keys !! Interval(lo, hi) <==> Hit(m, lo, hi) == {}
  {
    assert m.Keys * Interval(lo, hi) == Hit(m, lo, hi);
    if Hit(m, lo, hi) == {} {
      forall a | a in m.Keys ensures a !in Interval(lo, hi) { assert a !in Hit(m, lo, hi); }
    } else {
      var a :| a in Hit(m, lo, hi);
      assert a in m.Keys && a in Interval(lo, hi);
    }
  }

  lemma MapGranted(rs: seq<Range>, op: Op)
    requires WellFormed(rs) && Granted(rs, op)
    ensures var r := Range(op.iova, op.paddr, Bytes(op.pgsize, op.pgcount));
            && Proper(r) && !AnyOverlap(rs, r.iova, End(r))
            && Step(rs, op) == (rs + [r], Mapped(Success, r.size))
            && SpecStep(View(rs), op) == (View(rs) + Fresh(r), Mapped(Success, r.size))
  {
    RequestFits(op);
    var lo, hi := op.iova, op.iova + op.pgsize * op.pgcount;
    OverlapIsTaken(rs, lo, hi);
    TakenIs(View(rs), lo, hi);
    FreshIs(Range(op.iova, op.paddr, Bytes(op.pgsize, op.pgcount)));
  }

  lemma MapRefused(rs: seq<Range>, op: Op)
    requires WellFormed(rs) && op.MapOp? && !Granted(rs, op)
    ensures Step(rs, op).0 == rs && SpecStep(View(rs), op) == (View(rs), Step(rs, op).1)
    ensures Gained(Step(rs, op).1) == 0
  {
    RequestFits(op);
    if Requested(op).Some? {
      var lo, hi := op.iova, op.iova + op.pgsize * op.pgcount;
      OverlapIsTaken(rs, lo, hi);
      TakenIs(View(rs), lo, hi);
    }
  }

  lemma MapRefines(rs: seq<Range>, op: Op)
    requires WellFormed(rs) && op.MapOp?
    ensures WellFormed(Step(rs, op).0)
    ensures (View(Step(rs, op).0), Step(rs, op).1) == SpecStep(View(rs), op)
    ensures |View(Step(rs, op).0)| == |View(rs)| + Gained(Step(rs, op).1)
  {
    if Granted(rs, op) {
      MapGranted(rs, op);
      MapIntoFree(rs, Range(op.iova, op.paddr, Bytes(op.pgsize, op.pgcount)));
    } else {
      MapRefused(rs, op);
    }
  }

  lemma {:induction false} UnmapDone(rs: seq<Range>, op: Op)
    requires WellFormed(rs) && op.UnmapOp? && Requested(op).Some? && !Starved(rs, op)
    ensures var (lo, hi) := Requested(op).value;
            Step(rs, op) == (KeepAll(rs, lo, hi) + SplitAll(rs, lo, hi), Unmapped(SharedAll(rs, lo, hi)))
  {
  }

  lemma UnmapSpec(m: map<int, int>, op: Op)
    requires op.UnmapOp? && Requested(op).Some?
    ensures var (lo, hi) := Requested(op).value; SpecStep(m, op) == (Cut(m, lo, hi), Unmapped(|Hit(m, lo, hi)|))
  {
    RequestFits(op);
    var size := op.pgsize * op.pgcount;
    assert SpecStep(m, op) == SpecOn(m, op, size);
  }

  lemma UnmapRefines(rs: seq<Range>, op: Op)
    requires WellFormed(rs) && op.UnmapOp?
    ensures WellFormed(Step(rs, op).0)
    ensures if Starved(rs, op) then Step(rs, op) == (rs, Unmapped(0))
            else (View(Step(rs, op).0), Step(rs, op).1) == SpecStep(View(rs), op)
    ensures |View(Step(rs, op).0)| == |View(rs)| - Lost(Step(rs, op).1)
  {
    RequestFits(op);
    if Requested(op).Some? {
      var (lo, hi) := Requested(op).value;
      if !Starved(rs, op) {
        UnmapDone(rs, op);
        UnmapSpec(View(rs), op);
        UnmapCuts(rs, lo, hi);
        SharedCounts(rs, lo, hi);
        TakenIs(View(rs), lo, hi);
      }
    }
  }

  /** Each call keeps the list well formed and conserves bytes.  Unless the call
      is starved it does to the byte map what the specification says; starved,
      it answers 0 and changes nothing. */
  lemma StepRefines(rs: seq<Range>, op: Op)
    requires WellFormed(rs)
    ensures WellFormed(Step(rs, op).0)
    ensures if Starved(rs, op) then Step(rs, op) == (rs, Unmapped(0))
            else (View(Step(rs, op).0), Step(rs, op).1) == SpecStep(View(rs), op)
    ensures |View(Step(rs, op).0)| == |View(rs)| + Gained(Step(rs, op).1) - Lost(Step(rs, op).1)
  {
    if op.MapOp? { MapRefines(rs, op); } else { UnmapRefines(rs, op); }
  }

  /** The specification's map call, byte by byte. */
  lemma SpecMapsByte(m: map<int, int>, op: Op, size: nat, a: int)
    requires op.MapOp? && SpecOn(m, op, size).1.err == Success
    ensures var m' := SpecOn(m, op, size).0;
            && SpecOn(m, op, size).1.bytes == size > 0
            && (op.iova <= a < op.iova + size ==> a !in m && a in m' && m'[a] == (op.paddr + (a - op.iova)) % TWO64)
            && (!(op.iova <= a < op.iova + size) ==> (a in m' <==> a in m) && (a in m ==> m'[a] == m[a]))
  {
    var lo, hi := op.iova, op.iova + size;
    assert Between(lo, a, hi) <==> lo <= a < hi;
    assert a in Hit(m, lo, hi) <==> a in m && lo <= a < hi;
  }

  /** An accepted map call that succeeds reports `pgsize * pgcount` bytes; each of
      them is translated, in order, from `paddr` on, and no other byte changes. */
  lemma MapEveryByte(rs: seq<Range>, op: Op, a: int)
    requires WellFormed(rs) && op.MapOp? && Step(rs, op).1.err == Success
    ensures var m, m', size := View(rs), View(Step(rs, op).0), op.pgsize * op.pgcount;
            && Step(rs, op).1.bytes == size > 0
            && (op.iova <= a < op.iova + size ==> a !in m && a in m' && m'[a] == (op.paddr + (a - op.iova)) % TWO64)
            && (!(op.iova <= a < op.iova + size) ==> (a in m' <==> a in m) && (a in m ==> m'[a] == m[a]))
  {
    MapRefines(rs, op);
    SpecMapsByte(View(rs), op, op.pgsize * op.pgcount, a);
  }

  /** An unmap call that is accepted and not starved leaves none of its
      `pgsize * pgcount` bytes, changes no other, and reports how many were mapped. */
  lemma UnmapEveryByte(rs: seq<Range>, op: Op, a: int)
    requires WellFormed(rs) && op.UnmapOp? && !Starved(rs, op)
    requires 0 < op.pgsize * op.pgcount && op.iova + op.pgsize * op.pgcount < TWO64
    ensures var m, m', hi := View(rs), View(Step(rs, op).0), op.iova + op.pgsize * op.pgcount;
            && (op.iova <= a < hi ==> a !in m')
            && (!(op.iova <= a < hi) ==> (a in m' <==> a in m) && (a in m ==> m'[a] == m[a]))
            && Step(rs, op).1.bytes == |Hit(m, op.iova, hi)|
  {
    UnmapRefines(rs, op);
  }

  /** A whole run, from an empty domain. */
  ghost function Run(ops: seq<Op>): (res: (seq<Range>, seq<Reply>))
    ensures WellFormed(res.0) && |res.1| == |ops|
  {
    if ops == [] then ([], [])
    else
      var (rs, replies) := Run(ops[..|ops| - 1]);
      StepRefines(rs, ops[|ops| - 1]);
      var (rs', reply) := Step(rs, ops[|ops| - 1]);
      (rs', replies + [reply])
  }

  ghost function SpecRun(ops: seq<Op>): (map<int, int>, seq<Reply>) {
    if ops == [] then (map[], [])
    else
      var (m, replies) := SpecRun(ops[..|ops| - 1]);
      var (m', reply) := SpecStep(m, ops[|ops| - 1]);
      (m', replies + [reply])
  }

  /** Every split node that the run needed was there. */
  ghost predicate NeverStarved(ops: seq<Op>) {
    forall k :: 0 <= k < |ops| ==> !Starved(Run(ops[..k]).0, ops[k])
  }

  /** Over every run that is never starved, the list and its replies are those
      of the byte map. */
  lemma {:induction false} RunRefinesByteMap(ops: seq<Op>)
    requires NeverStarved(ops)
    ensures (View(Run(ops).0), Run(ops).1) == SpecRun(ops)
  {
    if ops == [] {
      assert View([]) == map[];
    } else {
      var init, op := ops[..|ops| - 1], ops[|ops| - 1];
      forall k | 0 <= k < |init| ensures !Starved(Run(init[..k]).0, init[k]) {
        assert init[..k] == ops[..k] && init[k] == ops[k];
      }
      RunRefinesByteMap(init);
      assert !Starved(Run(ops[..|ops| - 1]).0, ops[|ops| - 1]);
      StepRefines(Run(init).0, op);
    }
  }

  function TotalGained(replies: seq<Reply>): nat {
    if replies == [] then 0
    else TotalGained(replies[..|replies| - 1]) + Gained(replies[|replies| - 1])
  }

  function TotalLost(replies: seq<Reply>): nat {
    if replies == [] then 0
    else TotalLost(replies[..|replies| - 1]) + Lost(replies[|replies| - 1])
  }

  /** Over every run, starved or not: live bytes are the bytes reported mapped
      minus the bytes reported unmapped. */
  lemma {:induction false} BytesConserved(ops: seq<Op>)
    ensures |View(Run(ops).0)| == TotalGained(Run(ops).1) - TotalLost(Run(ops).1)
  {
    if ops == [] {
      assert View([]) == map[];
    } else {
      var init := ops[..|ops| - 1];
      BytesConserved(init);
      StepRefines(Run(init).0, ops[|ops| - 1]);
      var replies := Run(ops).1;
      assert replies[..|replies| - 1] == Run(init).1;
    }
  }
}
