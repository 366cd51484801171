/** What the walk keeps of a tree.

    The kept nodes are listed each once, after their parents, and they are
    exactly the nodes whose path starts outside the kernel's mount points and
    crosses no device boundary. */
module TreeWalk {
  import opened Options
  import opened RootfsTree

  // ---------------------------------------------------------------- the tree's list

  /** Directory entries have plain, distinct names, as in every file system. */
  predicate WellNamed(node: Node)
    decreases node, 0
  {
    node.Dir? ==> WellNamedChildren(node.children)
  }

  predicate WellNamedChildren(cs: seq<Child>)
    decreases cs, 1
  {
    cs == [] ||
    (&& WellNamedChildren(cs[..|cs| - 1])
     && PlainName(cs[|cs| - 1].name)
     && (forall i :: 0 <= i < |cs| - 1 ==> cs[i].name != cs[|cs| - 1].name)
     && WellNamed(cs[|cs| - 1].node))
  }

  /** `p` lies strictly below `top`, with plain names from there on. */
  predicate BelowPath(top: Path, p: Path) {
    top < p && forall k :: |top| <= k < |p| ==> PlainName(p[k])
  }

  ghost predicate Below(top: Path, items: seq<Item>) {
    forall i :: 0 <= i < |items| ==> BelowPath(top, items[i].path)
  }

  ghost predicate DistinctPaths(items: seq<Item>) {
    forall i, j :: 0 <= i < j < |items| ==> items[i].path != items[j].path
  }

  /** The parent of item `i` is `top` or a directory listed before it. */
  ghost predicate HasParent(top: Path, items: seq<Item>, i: nat)
    requires i < |items|
  {
    items[i].path != [] &&
    (|| Parent(items[i].path) == top
     || exists j :: 0 <= j < i && items[j].path == Parent(items[i].path) && items[j].node.Dir?)
  }

  ghost predicate ParentsFirst(top: Path, items: seq<Item>) {
    forall i :: 0 <= i < |items| ==> HasParent(top, items, i)
  }

  /** A list fit for unpacking below `top`: every node once, after its parent. */
  ghost predicate Listing(top: Path, items: seq<Item>) {
    Below(top, items) && DistinctPaths(items) && ParentsFirst(top, items)
  }

  /** A subtree's list: its root, then a listing below it. */
  ghost predicate Subtree(path: Path, items: seq<Item>) {
    items == [] ||
    (items[0].path == path && Listing(path, items[1..]) && (items[1..] != [] ==> items[0].node.Dir?))
  }

  /** Every item lies under one of the named children. */
  ghost predicate UnderNames(path: Path, items: seq<Item>, cs: seq<Child>) {
    forall i :: 0 <= i < |items| ==>
      path < items[i].path && exists k :: 0 <= k < |cs| && cs[k].name == items[i].path[|path|]
  }

  lemma HasParentShift(top: Path, xs: seq<Item>, ys: seq<Item>, i: nat)
    requires i < |ys| && HasParent(top, ys, i)
    ensures HasParent(top, xs + ys, |xs| + i)
  {
    assert (xs + ys)[|xs| + i] == ys[i];
    if Parent(ys[i].path) != top {
      var j :| 0 <= j < i && ys[j].path == Parent(ys[i].path) && ys[j].node.Dir?;
      assert (xs + ys)[|xs| + j] == ys[j];
    }
  }

  lemma HasParentPrefix(top: Path, xs: seq<Item>, ys: seq<Item>, i: nat)
    requires i < |xs| && HasParent(top, xs, i)
    ensures HasParent(top, xs + ys, i)
  {
    assert (xs + ys)[i] == xs[i];
    if Parent(xs[i].path) != top {
      var j :| 0 <= j < i && xs[j].path == Parent(xs[i].path) && xs[j].node.Dir?;
      assert (xs + ys)[j] == xs[j];
    }
  }

  /** A subtree rooted at a child of `path` is a listing below `path`. */
  lemma SubtreeIsListing(path: Path, name: string, items: seq<Item>)
    requires Subtree(path + [name], items) && PlainName(name)
    ensures Listing(path, items)
    ensures forall i :: 0 <= i < |items| ==> path < items[i].path && items[i].path[|path|] == name
  {
    var top := path + [name];
    if items != [] {
      var rest := items[1..];
      assert items == [items[0]] + rest;
      assert items[0].path == top && top[|path|] == name && Parent(top) == path;
      forall i | 0 <= i < |items|
        ensures BelowPath(path, items[i].path) && items[i].path[|path|] == name && HasParent(path, items, i)
      {
        if i > 0 {
          assert items[i] == rest[i - 1] && BelowPath(top, rest[i - 1].path);
          assert items[i].path[..|top|] == top && items[i].path[|path|] == top[|path|];
          assert HasParent(top, rest, i - 1);
          if Parent(rest[i - 1].path) == top {
            assert items[0].path == Parent(items[i].path) && items[0].node.Dir?;
          } else {
            var j :| 0 <= j < i - 1 && rest[j].path == Parent(rest[i - 1].path) && rest[j].node.Dir?;
            assert items[j + 1] == rest[j];
          }
        }
      }
      forall i, j | 0 <= i < j < |items| ensures items[i].path != items[j].path {
        assert items[j] == rest[j - 1] && BelowPath(top, rest[j - 1].path);
        if i > 0 { assert items[i] == rest[i - 1]; }
      }
    }
  }

  lemma JoinListings(path: Path, xs: seq<Item>, ys: seq<Item>, cs: seq<Child>, name: string)
    requires Listing(path, xs) && Listing(path, ys) && UnderNames(path, xs, cs)
    requires forall k :: 0 <= k < |cs| ==> cs[k].name != name
    requires forall i :: 0 <= i < |ys| ==> path < ys[i].path && ys[i].path[|path|] == name
    ensures Listing(path, xs + ys)
  {
    var zs := xs + ys;
    forall i | 0 <= i < |zs| ensures BelowPath(path, zs[i].path) && HasParent(path, zs, i) {
      if i < |xs| {
        assert zs[i] == xs[i] && HasParent(path, xs, i);
        HasParentPrefix(path, xs, ys, i);
      } else {
        assert zs[i] == ys[i - |xs|] && HasParent(path, ys, i - |xs|);
        HasParentShift(path, xs, ys, i - |xs|);
      }
    }
    forall i, j | 0 <= i < j < |zs| ensures zs[i].path != zs[j].path {
      if i < |xs| <= j {
        var k :| 0 <= k < |cs| && cs[k].name == xs[i].path[|path|];
        assert ys[j - |xs|].path[|path|] == name;
      } else if i >= |xs| {
        assert ys[i - |xs|].path != ys[j - |xs|].path;
      }
    }
  }

  lemma {:induction false} KeptIsSubtree(path: Path, node: Node, rootDev: nat)
    requires WellNamed(node)
    ensures Subtree(path, Kept(path, node, rootDev))
    decreases node, 0
  {
    if Passes(path, node, rootDev) {
      var items := Kept(path, node, rootDev);
      if node.Dir? {
        KeptChildrenListing(path, node.children, rootDev);
        assert items[1..] == KeptChildren(path, node.children, rootDev);
      } else {
        assert items[1..] == [];
      }
    }
  }

  lemma {:induction false} KeptChildrenListing(path: Path, cs: seq<Child>, rootDev: nat)
    requires WellNamedChildren(cs)
    ensures Listing(path, KeptChildren(path, cs, rootDev))
    ensures UnderNames(path, KeptChildren(path, cs, rootDev), cs)
    decreases cs, 1
  {
    if cs != [] {
      var init, last := cs[..|cs| - 1], cs[|cs| - 1];
      var xs, ys := KeptChildren(path, init, rootDev), Kept(path + [last.name], last.node, rootDev);
      KeptChildrenListing(path, init, rootDev);
      KeptIsSubtree(path + [last.name], last.node, rootDev);
      SubtreeIsListing(path, last.name, ys);
      JoinListings(path, xs, ys, init, last.name);
      forall i | 0 <= i < |xs + ys|
        ensures path < (xs + ys)[i].path && exists k :: 0 <= k < |cs| && cs[k].name == (xs + ys)[i].path[|path|]
      {
        if i < |xs| {
          var k :| 0 <= k < |init| && init[k].name == xs[i].path[|path|];
          assert cs[k] == init[k];
        } else {
          assert cs[|cs| - 1].name == ys[i - |xs|].path[|path|];
        }
      }
    }
  }

  // ---------------------------------------------------------------- which nodes

  function ChildNamed(cs: seq<Child>, name: string): Option<Node> {
    if cs == [] then None
    else if cs[|cs| - 1].name == name then Some(cs[|cs| - 1].node)
    else ChildNamed(cs[..|cs| - 1], name)
  }

  /** The node at a path below `node`. */
  function NodeAt(node: Node, path: Path): Option<Node>
    decreases |path|
  {
    if path == [] then Some(node)
    else if !node.Dir? then None
    else
      match ChildNamed(node.children, path[0])
      case None => None
      case Some(child) => NodeAt(child, path[1..])
  }

  /** The node at the prefix of length `k` is there and on the root's device, as
      far as devices are known. */
  predicate Clear(node: Node, q: Path, k: nat, rootDev: nat)
    requires k <= |q|
  {
    NodeAt(node, q[..k]).Some? &&
    var dev := NodeAt(node, q[..k]).value.dev; rootDev == 0 || dev == 0 || dev == rootDev
  }

  predicate AllClear(node: Node, q: Path, rootDev: nat) {
    forall k :: 0 <= k <= |q| ==> Clear(node, q, k, rootDev)
  }

  /** `n` is at `p`, outside the mount points, and every node on the way to it is
      on the root's device. */
  predicate KeptAt(root: Node, p: Path, n: Node) {
    && p != [] && NodeAt(root, p) == Some(n)
    && p[0] !in {"proc", "sys", "dev", "run", "tmp"} && AllClear(root, p, root.dev)
  }

  /** The walk gets from `node`, at `path`, to `q` below it. */
  predicate Reaches(path: Path, node: Node, q: Path, rootDev: nat)
    decreases |q|
  {
    && Passes(path, node, rootDev)
    && (q == [] ||
        (node.Dir? && var c := ChildNamed(node.children, q[0]);
                      c.Some? && Reaches(path + [q[0]], c.value, q[1..], rootDev)))
  }

  /** Items under one name come from the child of that name. */
  lemma {:induction false} ChildrenReach(path: Path, cs: seq<Child>, rootDev: nat, it: Item)
    requires WellNamedChildren(cs) && path < it.path
    ensures var name := it.path[|path|];
            it in KeptChildren(path, cs, rootDev) <==>
            && ChildNamed(cs, name).Some? && WellNamed(ChildNamed(cs, name).value)
            && it in Kept(path + [name], ChildNamed(cs, name).value, rootDev)
    decreases cs
  {
    if cs != [] {
      var init, last := cs[..|cs| - 1], cs[|cs| - 1];
      ChildrenReach(path, init, rootDev, it);
      KeptChildrenListing(path, init, rootDev);
      KeptIsSubtree(path + [last.name], last.node, rootDev);
      SubtreeIsListing(path, last.name, Kept(path + [last.name], last.node, rootDev));
    }
  }

  /** A node is in the list of a subtree exactly when the walk reaches it. */
  lemma {:induction false} KeptReaches(path: Path, node: Node, rootDev: nat, q: Path, n: Node)
    requires WellNamed(node)
    ensures Item(path + q, n) in Kept(path, node, rootDev) <==>
            NodeAt(node, q) == Some(n) && Reaches(path, node, q, rootDev)
    decreases |q|
  {
    if Passes(path, node, rootDev) {
      var items, it := Kept(path, node, rootDev), Item(path + q, n);
      KeptIsSubtree(path, node, rootDev);
      assert items == [Item(path, node)] + items[1..];
      if q == [] {
        assert path + q == path;
        assert forall i :: 0 <= i < |items[1..]| ==> BelowPath(path, items[1..][i].path);
      } else {
        assert it.path != path && (path + q)[|path|] == q[0];
        if node.Dir? {
          assert items[1..] == KeptChildren(path, node.children, rootDev);
          ChildrenReach(path, node.children, rootDev, it);
          var c := ChildNamed(node.children, q[0]);
          if c.Some? {
            ChildIsWellNamed(node.children, q[0]);
            assert path + q == path + [q[0]] + q[1..];
            KeptReaches(path + [q[0]], c.value, rootDev, q[1..], n);
          }
        }
      }
    }
  }

  lemma {:induction false} ChildIsWellNamed(cs: seq<Child>, name: string)
    requires WellNamedChildren(cs) && ChildNamed(cs, name).Some?
    ensures PlainName(name) && WellNamed(ChildNamed(cs, name).value)
    decreases cs
  {
    if cs[|cs| - 1].name != name { ChildIsWellNamed(cs[..|cs| - 1], name); }
  }

  lemma ClearStep(node: Node, q: Path, k: nat, rootDev: nat)
    requires 1 <= k <= |q|
    ensures Clear(node, q, k, rootDev) <==>
            && node.Dir? && ChildNamed(node.children, q[0]).Some?
            && Clear(ChildNamed(node.children, q[0]).value, q[1..], k - 1, rootDev)
  {
    assert q[..k][0] == q[0] && q[..k][1..] == q[1..][..k - 1];
  }

  lemma AllClearStep(node: Node, q: Path, rootDev: nat)
    requires q != []
    ensures AllClear(node, q, rootDev) <==>
            && !Foreign(node.dev, rootDev) && node.Dir? && ChildNamed(node.children, q[0]).Some?
            && AllClear(ChildNamed(node.children, q[0]).value, q[1..], rootDev)
  {
    assert q[..0] == [] && (Clear(node, q, 0, rootDev) <==> !Foreign(node.dev, rootDev));
    if AllClear(node, q, rootDev) {
      assert Clear(node, q, 1, rootDev);
      ClearStep(node, q, 1, rootDev);
      forall k | 0 <= k <= |q[1..]| ensures Clear(ChildNamed(node.children, q[0]).value, q[1..], k, rootDev) {
        assert Clear(node, q, k + 1, rootDev);
        ClearStep(node, q, k + 1, rootDev);
      }
    }
    if && !Foreign(node.dev, rootDev) && node.Dir? && ChildNamed(node.children, q[0]).Some?
       && AllClear(ChildNamed(node.children, q[0]).value, q[1..], rootDev) {
      forall k | 0 <= k <= |q| ensures Clear(node, q, k, rootDev) {
        if k > 0 {
          assert Clear(ChildNamed(node.children, q[0]).value, q[1..], k - 1, rootDev);
          ClearStep(node, q, k, rootDev);
        }
      }
    }
  }

  /** Below a first name that is not skipped, the walk reaches a node exactly
      when every node on the way is there and on the root's device. */
  lemma {:induction false} ReachesExactly(path: Path, node: Node, q: Path, rootDev: nat)
    requires path != [] && '/' !in path[0] && path[0] !in SKIPPED
    ensures Reaches(path, node, q, rootDev) <==> AllClear(node, q, rootDev)
    decreases |q|
  {
    SkipsByFirstName(path);
    if q == [] {
      assert Clear(node, q, 0, rootDev) <==> !Foreign(node.dev, rootDev) by { assert q[..0] == []; }
    } else {
      AllClearStep(node, q, rootDev);
      if node.Dir? && ChildNamed(node.children, q[0]).Some? {
        ReachesExactly(path + [q[0]], ChildNamed(node.children, q[0]).value, q[1..], rootDev);
      }
    }
  }

  /** The walk keeps exactly the nodes outside the mount points whose path stays
      on the root's device. */
  lemma {:induction false} KeptExactly(root: Node, p: Path, n: Node)
    requires WellNamed(root)
    ensures Item(p, n) in KeptTree(root) <==> KeptAt(root, p, n)
  {
    if root.Dir? {
      KeptChildrenListing([], root.children, root.dev);
      if p != [] {
        var it, c := Item(p, n), ChildNamed(root.children, p[0]);
        ChildrenReach([], root.children, root.dev, it);
        AllClearStep(root, p, root.dev);
        assert [] + [p[0]] == [p[0]] && p == [p[0]] + p[1..];
        if c.Some? {
          ChildIsWellNamed(root.children, p[0]);
          KeptReaches([p[0]], c.value, root.dev, p[1..], n);
          SkipsByFirstName([p[0]]);
          if p[0] !in SKIPPED { ReachesExactly([p[0]], c.value, p[1..], root.dev); }
        }
      }
    }
  }

  /** Every kept node is listed once, with a plain path, after its parent. */
  lemma {:induction false} KeptIsListing(root: Node)
    requires WellNamed(root)
    ensures Listing([], KeptTree(root))
    ensures forall p, n :: KeptAt(root, p, n) <==> Item(p, n) in KeptTree(root)
  {
    if root.Dir? { KeptChildrenListing([], root.children, root.dev); }
    forall p, n ensures KeptAt(root, p, n) <==> Item(p, n) in KeptTree(root) { KeptExactly(root, p, n); }
  }

  // ---------------------------------------------------------------- hard links

  /** Node `i` of the list is a file with this inode number and more links. */
  ghost predicate SharesInode(items: seq<Item>, i: nat, ino: nat)
    requires i < |items|
  {
    items[i].node.File? && items[i].node.nlink >= 2 && items[i].node.ino == ino
  }

  /** No earlier node of the list is a link to the same file. */
  ghost predicate FirstOfFile(items: seq<Item>, j: nat)
    requires j < |items| && items[j].node.File?
  {
    items[j].node.nlink < 2 || forall i :: 0 <= i < j ==> !SharesInode(items, i, items[j].node.ino)
  }

  lemma {:induction false} EmitAt(items: seq<Item>, j: nat)
    requires j < |items|
    ensures Emit(items)[j] == EntryOf(items[..j], items[j])
  {
    var init := items[..|items| - 1];
    if j < |init| {
      EmitAt(init, j);
      assert init[..j] == items[..j];
    }
  }

  lemma FirstLinkedIs(items: seq<Item>, j: nat)
    requires j < |items| && items[j].node.File?
    ensures var r := FirstLinked(items[..j], items[j].node.ino);
            && (r.None? <==> forall i :: 0 <= i < j ==> !SharesInode(items, i, items[j].node.ino))
            && (r.Some? ==> && r.value < j && SharesInode(items, r.value, items[j].node.ino)
                            && forall i :: 0 <= i < r.value ==> !SharesInode(items, i, items[j].node.ino))
  {
    var before, ino := items[..j], items[j].node.ino;
    forall i | 0 <= i < j && SharesInode(items, i, ino)
      ensures FirstLinked(before, ino).Some? && FirstLinked(before, ino).value <= i
    {
      FirstLinkedIsFirst(before, i);
    }
    var r := FirstLinked(before, ino);
    if r.Some? {
      assert before[r.value] == items[r.value];
      assert SharesInode(items, r.value, ino);
    }
  }

  /** Which entry a kept file becomes: its bytes, at the first path of the file, and
      a link to that path at each later one. */
  lemma {:induction false} FileEntryIs(items: seq<Item>, j: nat)
    requires j < |items| && items[j].node.File?
    ensures FirstOfFile(items, j) ==> Emit(items)[j] == RegEntry(items[j].path, items[j].node.content)
    ensures !FirstOfFile(items, j) ==>
              exists i :: && 0 <= i < j && SharesInode(items, i, items[j].node.ino) && FirstOfFile(items, i)
                          && Emit(items)[j] == LinkEntry(items[j].path, items[i].path)
  {
    EmitAt(items, j);
    FirstLinkedIs(items, j);
    var r := FirstLinked(items[..j], items[j].node.ino);
    if !FirstOfFile(items, j) {
      assert FirstOfFile(items, r.value);
    }
  }

  /** The bytes of the first `n` nodes, each file once. */
  ghost function BytesOnce(items: seq<Item>, n: nat): nat
    requires n <= |items|
  {
    if n == 0 then 0
    else
      BytesOnce(items, n - 1)
      + if items[n - 1].node.File? && FirstOfFile(items, n - 1) then |items[n - 1].node.content| else 0
  }

  lemma {:induction false} SizeCountsOnce(items: seq<Item>, n: nat)
    requires n <= |items|
    ensures SizeOf(items[..n]) == BytesOnce(items, n)
  {
    if n > 0 {
      SizeCountsOnce(items, n - 1);
      assert items[..n][..n - 1] == items[..n - 1];
      if items[n - 1].node.File? { FirstLinkedIs(items, n - 1); }
    }
  }

  /** DirSize adds up the kept files, each file once. */
  lemma TreeSizeIs(root: Node)
    requires !root.File?
    ensures TreeSize(root) == BytesOnce(KeptTree(root), |KeptTree(root)|)
  {
    var items := KeptTree(root);
    SizeCountsOnce(items, |items|);
    assert items[..|items|] == items;
  }
}
