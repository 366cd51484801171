/** The round trip of a root filesystem: walk, archive, unpack.

    The nodes that survive the walk form a list in which every node comes after
    its parent.  Unpacking the archive of such a list below an empty directory
    puts every node in its place, keeps everything else, and makes two files one
    inode exactly when the archive linked them. */
module RoundTrip {
  import opened Options
  import opened Words
  import opened RootfsTree
  import opened TreeWalk
  import opened Unpack

  // ---------------------------------------------------------------- hard links

  predicate Links(x: Item, y: Item) { Linked(x) && Linked(y) && x.node.ino == y.node.ino }

  /** The item whose bytes item `k` ends up with: the first link to its inode. */
  function Rep(items: seq<Item>, k: nat): (r: nat)
    requires k < |items|
    ensures r < |items|
    ensures items[k].node.File? ==> items[r].node.File?
  {
    if Linked(items[k]) && FirstLinked(items, items[k].node.ino).Some?
    then FirstLinked(items, items[k].node.ino).value else k
  }

  lemma {:induction false} FirstLinkedSnoc(items: seq<Item>, it: Item, ino: nat)
    ensures FirstLinked(items + [it], ino) ==
            if FirstLinked(items, ino).Some? then FirstLinked(items, ino)
            else if Linked(it) && it.node.ino == ino then Some(|items|)
            else None
  {
    assert (items + [it])[..|items|] == items;
  }

  lemma RepSnoc(items: seq<Item>, it: Item, k: nat)
    requires k < |items|
    ensures Rep(items + [it], k) == Rep(items, k) < |items|
  {
    assert (items + [it])[k] == items[k];
    if Linked(items[k]) {
      FirstLinkedIsFirst(items, k);
      FirstLinkedSnoc(items, it, items[k].node.ino);
    }
  }

  lemma {:induction false} RepOfLast(items: seq<Item>, it: Item)
    ensures Rep(items + [it], |items|) ==
            if Linked(it) && FirstLinked(items, it.node.ino).Some? then FirstLinked(items, it.node.ino).value
            else |items|
  {
    if it.node.File? { FirstLinkedSnoc(items, it, it.node.ino); }
  }

  /** A representative represents itself. */
  lemma RepIsStable(items: seq<Item>, k: nat)
    requires k < |items|
    ensures Rep(items, Rep(items, k)) == Rep(items, k)
  {
    if Linked(items[k]) { FirstLinkedIsFirst(items, k); }
  }

  /** Two items share a representative exactly when they are links to one inode
      number, or the same item. */
  lemma SameRepExactly(items: seq<Item>, k: nat, l: nat)
    requires k < |items| && l < |items|
    ensures Rep(items, k) == Rep(items, l) <==>
            k == l || Links(items[k], items[l])
  {
    if Linked(items[k]) { FirstLinkedIsFirst(items, k); }
    if Linked(items[l]) { FirstLinkedIsFirst(items, l); }
  }

  // ---------------------------------------------------------------- the unpacked tree

  ghost predicate FileAt(fs: Fs, p: Path) {
    p in fs.names && fs.names[p].FileObj? && fs.names[p].inode in fs.data
  }

  /** Item `k` is in its place. */
  ghost predicate Placed(fs: Fs, dest: Path, items: seq<Item>, k: nat)
    requires k < |items|
  {
    var p := dest + items[k].path;
    match items[k].node
    case Dir(_, _) => IsDir(fs, p)
    case Symlink(_, target) => p in fs.names && fs.names[p] == LinkObj(target)
    case Special(_) => p !in fs.names
    case File(_, _, _, _) =>
      FileAt(fs, p) && fs.data[fs.names[p].inode] == items[Rep(items, k)].node.content
  }

  ghost predicate AllPlaced(fs: Fs, dest: Path, items: seq<Item>) {
    forall k :: 0 <= k < |items| ==> Placed(fs, dest, items, k)
  }

  /** Two files are one inode exactly when they have one representative. */
  ghost predicate OneInode(fs: Fs, dest: Path, items: seq<Item>, k: nat, l: nat)
    requires k < |items| && l < |items|
  {
    && dest + items[k].path in fs.names && dest + items[l].path in fs.names
    && (fs.names[dest + items[k].path] == fs.names[dest + items[l].path] <==> Rep(items, k) == Rep(items, l))
  }

  ghost predicate LinksKept(fs: Fs, dest: Path, items: seq<Item>) {
    forall k, l :: 0 <= k < |items| && 0 <= l < |items| && items[k].node.File? && items[l].node.File? ==>
      OneInode(fs, dest, items, k, l)
  }

  ghost predicate Named(dest: Path, items: seq<Item>, p: Path) {
    exists k :: 0 <= k < |items| && p == dest + items[k].path
  }

  /** What was there before is untouched, and nothing but the items was added. */
  ghost predicate OnlyItems(fs: Fs, base: Fs, dest: Path, items: seq<Item>) {
    && (forall p :: p in base.names ==> p in fs.names && fs.names[p] == base.names[p])
    && (forall i :: i in base.data && i < base.next ==> i in fs.data && fs.data[i] == base.data[i])
    && (forall p :: p in fs.names ==> p in base.names || Named(dest, items, p))
  }

  /** New files use new inodes. */
  ghost predicate NewInodes(fs: Fs, base: Fs, dest: Path, items: seq<Item>) {
    && base.next <= fs.next
    && (forall k :: 0 <= k < |items| && items[k].node.File? ==>
          FileAt(fs, dest + items[k].path) && base.next <= fs.names[dest + items[k].path].inode < fs.next)
  }

  ghost predicate Unpacked(fs: Fs, base: Fs, dest: Path, items: seq<Item>) {
    && AllPlaced(fs, dest, items) && LinksKept(fs, dest, items)
    && OnlyItems(fs, base, dest, items) && NewInodes(fs, base, dest, items)
  }

  /** An empty directory to unpack into. */
  ghost predicate EmptyDir(base: Fs, dest: Path) {
    PlainPath(dest) && IsDir(base, dest) && forall p :: p in base.names ==> !(dest < p)
  }

  predicate NoWhiteouts(items: seq<Item>) {
    forall i :: 0 <= i < |items| ==> items[i].path == [] || !IsWhiteout(Base(items[i].path))
  }

  // ---------------------------------------------------------------- one entry

  lemma OtherPlaces(dest: Path, items: seq<Item>, it: Item, k: nat)
    requires k < |items| && Listing([], items + [it])
    ensures dest + items[k].path != dest + it.path
  {
    var all := items + [it];
    assert all[k].path != all[|items|].path;
    assert (dest + items[k].path)[|dest|..] == items[k].path && (dest + it.path)[|dest|..] == it.path;
  }

  /** The place of the next item is free, and its parent directory is there. */
  lemma {:induction false} NextPlace(fs: Fs, base: Fs, dest: Path, items: seq<Item>, it: Item)
    requires EmptyDir(base, dest) && Unpacked(fs, base, dest, items) && Listing([], items + [it])
    ensures it.path != [] && dest + it.path !in fs.names
    ensures Resolve(dest + it.path) == dest + it.path
    ensures IsDir(fs, Parent(dest + it.path))
  {
    var all, n, t := items + [it], |items|, dest + it.path;
    assert all[n] == it && BelowPath([], all[n].path) && HasParent([], all, n);
    assert PlainPath(t);
    ResolvePlain(t);
    assert dest < t;
    forall k | 0 <= k < n ensures dest + items[k].path != t { OtherPlaces(dest, items, it, k); }
    assert Parent(t) == dest + Parent(it.path);
    if Parent(it.path) == [] {
      assert Parent(t) == dest;
    } else {
      var j :| 0 <= j < n && all[j].path == Parent(it.path) && all[j].node.Dir?;
      assert all[j] == items[j] && Placed(fs, dest, items, j);
    }
  }

  /** `g` is `fs` with at most one more name and one more inode. */
  ghost predicate Grown(fs: Fs, g: Fs, p: Path, obj: Option<Obj>) {
    && p !in fs.names && g.names == (if obj.Some? then fs.names[p := obj.value] else fs.names)
    && fs.next <= g.next && (forall i :: i in fs.data && i < fs.next ==> i in g.data && g.data[i] == fs.data[i])
  }

  lemma GrownPlaced(fs: Fs, g: Fs, base: Fs, dest: Path, items: seq<Item>, it: Item, obj: Option<Obj>)
    requires Unpacked(fs, base, dest, items) && Listing([], items + [it])
    requires Grown(fs, g, dest + it.path, obj) && Placed(g, dest, items + [it], |items|)
    ensures AllPlaced(g, dest, items + [it])
  {
    forall k | 0 <= k < |items| ensures Placed(g, dest, items + [it], k) {
      assert (items + [it])[k] == items[k] && Placed(fs, dest, items, k);
      OtherPlaces(dest, items, it, k);
      RepSnoc(items, it, k);
      assert (items + [it])[Rep(items, k)] == items[Rep(items, k)];
    }
  }

  lemma GrownOnlyItems(fs: Fs, g: Fs, base: Fs, dest: Path, items: seq<Item>, it: Item, obj: Option<Obj>)
    requires Unpacked(fs, base, dest, items) && Grown(fs, g, dest + it.path, obj)
    ensures OnlyItems(g, base, dest, items + [it])
  {
    var all := items + [it];
    forall p | p in g.names ensures p in base.names || Named(dest, all, p) {
      if p == dest + it.path {
        assert p == dest + all[|items|].path;
      } else if p !in base.names {
        var k :| 0 <= k < |items| && p == dest + items[k].path;
        assert p == dest + all[k].path;
      }
    }
  }

  /** Whether a new object is the same inode as an earlier file. */
  ghost predicate Linking(fs: Fs, dest: Path, items: seq<Item>, it: Item, obj: Obj) {
    forall k :: 0 <= k < |items| && items[k].node.File? ==>
      dest + items[k].path in fs.names &&
      (fs.names[dest + items[k].path] == obj <==> Rep(items, k) == Rep(items + [it], |items|))
  }

  lemma GrownLinks(fs: Fs, g: Fs, base: Fs, dest: Path, items: seq<Item>, it: Item, obj: Option<Obj>)
    requires Unpacked(fs, base, dest, items) && Listing([], items + [it])
    requires Grown(fs, g, dest + it.path, obj) && (it.node.File? ==> obj.Some? && Linking(fs, dest, items, it, obj.value))
    ensures LinksKept(g, dest, items + [it])
  {
    var all, n := items + [it], |items|;
    forall k, l | 0 <= k < |all| && 0 <= l < |all| && all[k].node.File? && all[l].node.File?
      ensures OneInode(g, dest, all, k, l)
    {
      if k < n { RepSnoc(items, it, k); OtherPlaces(dest, items, it, k); }
      if l < n { RepSnoc(items, it, l); OtherPlaces(dest, items, it, l); }
      if k < n && l < n { assert OneInode(fs, dest, items, k, l); }
    }
  }

  /** The invariant survives one more item. */
  lemma Grow(fs: Fs, g: Fs, base: Fs, dest: Path, items: seq<Item>, it: Item, obj: Option<Obj>)
    requires Unpacked(fs, base, dest, items) && Listing([], items + [it])
    requires Grown(fs, g, dest + it.path, obj) && Placed(g, dest, items + [it], |items|)
    requires it.node.File? ==>
               && obj.Some? && obj.value.FileObj? && base.next <= obj.value.inode < g.next
               && Linking(fs, dest, items, it, obj.value)
    ensures Unpacked(g, base, dest, items + [it])
  {
    GrownPlaced(fs, g, base, dest, items, it, obj);
    GrownOnlyItems(fs, g, base, dest, items, it, obj);
    GrownLinks(fs, g, base, dest, items, it, obj);
    forall k | 0 <= k < |items| && items[k].node.File?
      ensures FileAt(g, dest + items[k].path) && base.next <= g.names[dest + items[k].path].inode < g.next
    {
      OtherPlaces(dest, items, it, k);
      assert FileAt(fs, dest + items[k].path);
    }
  }

  /** Unpacking the next item's entry succeeds and puts it in its place. */
  ghost predicate Steps(fs: Fs, base: Fs, dest: Path, items: seq<Item>, it: Item) {
    var g := Apply(fs, dest, EntryOf(items, it));
    g.Some? && Unpacked(g.value, base, dest, items + [it])
  }

  ghost predicate Ready(fs: Fs, base: Fs, dest: Path, items: seq<Item>, it: Item) {
    && EmptyDir(base, dest) && Unpacked(fs, base, dest, items) && Listing([], items + [it])
    && (it.path == [] || !IsWhiteout(Base(it.path)))
  }

  /** An entry for a free place in an existing directory. */
  ghost predicate Placeable(fs: Fs, dest: Path, e: Entry) {
    && e.path != [] && !IsWhiteout(Base(e.path))
    && Resolve(dest + e.path) == dest + e.path && dest + e.path !in fs.names && IsDir(fs, Parent(dest + e.path))
  }

  lemma ApplyNew(fs: Fs, dest: Path, e: Entry)
    requires Placeable(fs, dest, e) && !e.LinkEntry?
    ensures Apply(fs, dest, e) == Some(
              match e
              case DirEntry(_) => fs.(names := fs.names[dest + e.path := DirObj])
              case SymlinkEntry(_, to) => fs.(names := fs.names[dest + e.path := LinkObj(to)])
              case RegEntry(_, content) =>
                Fs(fs.names[dest + e.path := FileObj(fs.next)], fs.data[fs.next := content], fs.next + 1)
              case _ => fs)
  {
    assert WHITEOUT <= OPAQUE;
    assert fs.names - {dest + e.path} == fs.names;
    assert MkdirAll(fs, Parent(dest + e.path)) == Some(fs);
  }

  lemma {:induction false} ApplyLink(fs: Fs, dest: Path, e: Entry)
    requires Placeable(fs, dest, e) && e.LinkEntry?
    requires Resolve(dest + e.link) == dest + e.link
    requires dest + e.link in fs.names && !fs.names[dest + e.link].DirObj?
    ensures Apply(fs, dest, e) == Some(fs.(names := fs.names[dest + e.path := fs.names[dest + e.link]]))
  {
    assert WHITEOUT <= OPAQUE;
    assert fs.names - {dest + e.path} == fs.names;
  }

  lemma StepPlain(fs: Fs, base: Fs, dest: Path, items: seq<Item>, it: Item)
    requires Ready(fs, base, dest, items, it) && !it.node.File?
    ensures Steps(fs, base, dest, items, it)
  {
    NextPlace(fs, base, dest, items, it);
    ApplyNew(fs, dest, EntryOf(items, it));
    var obj := match it.node
      case Dir(_, _) => Some(DirObj)
      case Symlink(_, to) => Some(LinkObj(to))
      case _ => None;
    var g := Apply(fs, dest, EntryOf(items, it)).value;
    assert Grown(fs, g, dest + it.path, obj);
    Grow(fs, g, base, dest, items, it, obj);
  }

  lemma StepFile(fs: Fs, base: Fs, dest: Path, items: seq<Item>, it: Item)
    requires Ready(fs, base, dest, items, it) && EntryOf(items, it).RegEntry?
    ensures Steps(fs, base, dest, items, it)
  {
    NextPlace(fs, base, dest, items, it);
    ApplyNew(fs, dest, EntryOf(items, it));
    RepOfLast(items, it);
    var obj, g := FileObj(fs.next), Apply(fs, dest, EntryOf(items, it)).value;
    forall k | 0 <= k < |items| && items[k].node.File?
      ensures FileAt(fs, dest + items[k].path) && fs.names[dest + items[k].path] != obj && Rep(items, k) < |items|
    {
    }
    Grow(fs, g, base, dest, items, it, Some(obj));
  }

  /** The first link to an inode is an earlier item, and has a plain path. */
  lemma {:induction false} FirstIsPlain(dest: Path, items: seq<Item>, it: Item, f: nat)
    requires PlainPath(dest) && Listing([], items + [it])
    requires Linked(it) && FirstLinked(items, it.node.ino) == Some(f)
    ensures Rep(items + [it], |items|) == f == Rep(items, f) && (items + [it])[f] == items[f]
    ensures Resolve(dest + items[f].path) == dest + items[f].path
  {
    RepOfLast(items, it);
    assert (items + [it])[f] == items[f] && BelowPath([], (items + [it])[f].path);
    assert PlainPath(dest + items[f].path);
    ResolvePlain(dest + items[f].path);
  }

  /** Linking to a file makes the links of that file, and no others. */
  lemma FirstLinks(fs: Fs, dest: Path, items: seq<Item>, it: Item, f: nat)
    requires LinksKept(fs, dest, items)
    requires f < |items| && items[f].node.File? && dest + items[f].path in fs.names
    requires Rep(items + [it], |items|) == Rep(items, f)
    ensures Linking(fs, dest, items, it, fs.names[dest + items[f].path])
  {
    forall k | 0 <= k < |items| && items[k].node.File? ensures OneInode(fs, dest, items, k, f) {
    }
  }

  lemma StepLink(fs: Fs, base: Fs, dest: Path, items: seq<Item>, it: Item)
    requires Ready(fs, base, dest, items, it) && EntryOf(items, it).LinkEntry?
    ensures Steps(fs, base, dest, items, it)
  {
    NextPlace(fs, base, dest, items, it);
    var f := FirstLinked(items, it.node.ino).value;
    FirstIsPlain(dest, items, it, f);
    assert Placed(fs, dest, items, f);
    FirstLinks(fs, dest, items, it, f);
    ApplyLink(fs, dest, EntryOf(items, it));
    var obj := fs.names[dest + EntryOf(items, it).link];
    Grow(fs, Apply(fs, dest, EntryOf(items, it)).value, base, dest, items, it, Some(obj));
  }

  lemma Step(fs: Fs, base: Fs, dest: Path, items: seq<Item>, it: Item)
    requires Ready(fs, base, dest, items, it)
    ensures Steps(fs, base, dest, items, it)
  {
    match EntryOf(items, it)
    case RegEntry(_, _) => StepFile(fs, base, dest, items, it);
    case LinkEntry(_, _) => StepLink(fs, base, dest, items, it);
    case _ => StepPlain(fs, base, dest, items, it);
  }

  // ---------------------------------------------------------------- the whole archive

  lemma ListingPrefix(items: seq<Item>, it: Item)
    requires Listing([], items + [it])
    ensures Listing([], items)
  {
    var all := items + [it];
    forall i | 0 <= i < |items| ensures BelowPath([], items[i].path) && HasParent([], items, i) {
      assert all[i] == items[i] && BelowPath([], all[i].path) && HasParent([], all, i);
    }
    forall i, j | 0 <= i < j < |items| ensures items[i].path != items[j].path {
      assert all[i].path != all[j].path;
    }
  }

  lemma {:induction false} UnpackListing(base: Fs, dest: Path, items: seq<Item>)
    requires EmptyDir(base, dest) && Listing([], items) && NoWhiteouts(items)
    ensures var r := ApplyAll(base, dest, Emit(items)); r.Some? && Unpacked(r.value, base, dest, items)
  {
    if items != [] {
      var before, it := items[..|items| - 1], items[|items| - 1];
      assert items == before + [it];
      ListingPrefix(before, it);
      UnpackListing(base, dest, before);
      assert Emit(items)[..|before|] == Emit(before);
      Step(ApplyAll(base, dest, Emit(before)).value, base, dest, before, it);
    }
  }

  // ---------------------------------------------------------------- the whole tree

  /** No kept node has a name that the unpacker reads as a whiteout. */
  ghost predicate NoWhiteoutNames(root: Node) {
    forall p, n :: KeptAt(root, p, n) ==> !IsWhiteout(Base(p))
  }

  /** The node `n` is what stands at `x`; device nodes are not unpacked. */
  ghost predicate InPlace(fs: Fs, x: Path, n: Node) {
    match n
    case Dir(_, _) => IsDir(fs, x)
    case Symlink(_, target) => x in fs.names && fs.names[x] == LinkObj(target)
    case Special(_) => x !in fs.names
    case File(_, _, _, _) => FileAt(fs, x)
  }

  predicate HardLinks(n: Node, m: Node) {
    n.File? && m.File? && n.nlink > 1 && m.nlink > 1 && n.ino == m.ino
  }

  ghost predicate KeptInPlace(fs: Fs, dest: Path, root: Node) {
    forall p, n :: KeptAt(root, p, n) ==> InPlace(fs, dest + p, n)
  }

  /** Two kept files are one file exactly when they were hard links. */
  ghost predicate LinksRebuilt(fs: Fs, dest: Path, root: Node) {
    forall p, n, q, m :: KeptAt(root, p, n) && KeptAt(root, q, m) && n.File? && m.File? ==>
      && dest + p in fs.names && dest + q in fs.names
      && (fs.names[dest + p] == fs.names[dest + q] <==> p == q || HardLinks(n, m))
  }

  ghost predicate IsKept(root: Node, dest: Path, x: Path) {
    exists p, n :: KeptAt(root, p, n) && x == dest + p
  }

  /** What was there is untouched, and nothing but the kept nodes was added. */
  ghost predicate NothingElse(fs: Fs, base: Fs, dest: Path, root: Node) {
    && (forall x :: x in base.names ==> x in fs.names && fs.names[x] == base.names[x])
    && (forall i :: i in base.data && i < base.next ==> i in fs.data && fs.data[i] == base.data[i])
    && (forall x :: x in fs.names ==> x in base.names || IsKept(root, dest, x))
  }

  ghost predicate Rebuilt(fs: Fs, base: Fs, dest: Path, root: Node) {
    KeptInPlace(fs, dest, root) && LinksRebuilt(fs, dest, root) && NothingElse(fs, base, dest, root)
  }

  /** Where a kept node is in the list. */
  lemma IndexOf(root: Node, p: Path, n: Node) returns (k: nat)
    requires WellNamed(root) && KeptAt(root, p, n)
    ensures k < |KeptTree(root)| && KeptTree(root)[k] == Item(p, n)
  {
    KeptExactly(root, p, n);
    k :| 0 <= k < |KeptTree(root)| && KeptTree(root)[k] == Item(p, n);
  }

  lemma {:induction false} ItemIsKept(root: Node, k: nat)
    requires WellNamed(root) && k < |KeptTree(root)|
    ensures var it := KeptTree(root)[k]; KeptAt(root, it.path, it.node)
  {
    var it := KeptTree(root)[k];
    assert it == Item(it.path, it.node);
    KeptExactly(root, it.path, it.node);
  }

  lemma {:induction false} UnpackedInPlace(fs: Fs, dest: Path, root: Node)
    requires WellNamed(root) && AllPlaced(fs, dest, KeptTree(root))
    ensures KeptInPlace(fs, dest, root)
  {
    forall p, n | KeptAt(root, p, n) ensures InPlace(fs, dest + p, n) {
      var k := IndexOf(root, p, n);
      assert Placed(fs, dest, KeptTree(root), k);
    }
  }

  lemma {:induction false} UnpackedLinks(fs: Fs, dest: Path, root: Node)
    requires WellNamed(root) && LinksKept(fs, dest, KeptTree(root))
    ensures LinksRebuilt(fs, dest, root)
  {
    var items := KeptTree(root);
    KeptIsListing(root);
    forall p, n, q, m | KeptAt(root, p, n) && KeptAt(root, q, m) && n.File? && m.File?
      ensures && dest + p in fs.names && dest + q in fs.names
              && (fs.names[dest + p] == fs.names[dest + q] <==> p == q || HardLinks(n, m))
    {
      var k := IndexOf(root, p, n);
      var l := IndexOf(root, q, m);
      assert OneInode(fs, dest, items, k, l);
      SameRepExactly(items, k, l);
      assert p == q <==> k == l;
    }
  }

  lemma {:induction false} UnpackedNothingElse(fs: Fs, base: Fs, dest: Path, root: Node)
    requires WellNamed(root) && OnlyItems(fs, base, dest, KeptTree(root))
    ensures NothingElse(fs, base, dest, root)
  {
    forall x | x in fs.names && x !in base.names ensures IsKept(root, dest, x) {
      var k :| 0 <= k < |KeptTree(root)| && x == dest + KeptTree(root)[k].path;
      ItemIsKept(root, k);
    }
  }

  lemma {:induction false} WhiteoutsByPath(root: Node)
    requires WellNamed(root) && NoWhiteoutNames(root)
    ensures NoWhiteouts(KeptTree(root))
  {
    forall i | 0 <= i < |KeptTree(root)|
      ensures KeptTree(root)[i].path == [] || !IsWhiteout(Base(KeptTree(root)[i].path))
    {
      ItemIsKept(root, i);
    }
  }

  /** Unpacking the archive of a tree into an empty directory succeeds.  Every
      node outside the mount points and on the root's device is in its place,
      two files are one exactly when they were hard links, and nothing else is
      added or changed. */
  lemma {:induction false} UnpackRebuildsTheTree(base: Fs, dest: Path, root: Node)
    requires EmptyDir(base, dest) && WellNamed(root) && NoWhiteoutNames(root)
    ensures var r := ApplyAll(base, dest, Archive(root));
            r.Some? && Rebuilt(r.value, base, dest, root) && AllPlaced(r.value, dest, KeptTree(root))
  {
    WhiteoutsByPath(root);
    KeptIsListing(root);
    UnpackListing(base, dest, KeptTree(root));
    var fs := ApplyAll(base, dest, Archive(root)).value;
    UnpackedInPlace(fs, dest, root);
    UnpackedLinks(fs, dest, root);
    UnpackedNothingElse(fs, base, dest, root);
  }

  // ---------------------------------------------------------------- file bytes

  /** Every kept file has its own bytes. */
  ghost predicate OwnBytes(fs: Fs, dest: Path, root: Node) {
    forall p, n :: KeptAt(root, p, n) && n.File? ==>
      FileAt(fs, dest + p) && fs.data[fs.names[dest + p].inode] == n.content
  }

  /** Hard links have the same bytes. */
  ghost predicate LinksAgree(root: Node) {
    forall p, n, q, m :: KeptAt(root, p, n) && KeptAt(root, q, m) && HardLinks(n, m) ==> n.content == m.content
  }

  /** Every file gets back its own bytes exactly when an inode number stands for
      one file: true on one device, and the walk identifies files by number alone. */
  lemma {:induction false} BytesSurviveExactly(base: Fs, dest: Path, root: Node)
    requires EmptyDir(base, dest) && WellNamed(root) && NoWhiteoutNames(root)
    ensures var r := ApplyAll(base, dest, Archive(root)); r.Some? && (OwnBytes(r.value, dest, root) <==> LinksAgree(root))
  {
    UnpackRebuildsTheTree(base, dest, root);
    var fs := ApplyAll(base, dest, Archive(root)).value;
    BytesFollowReps(fs, dest, KeptTree(root));
    BytesByPath(fs, dest, root);
    AgreementByPath(root);
  }

  lemma {:induction false} BytesByPath(fs: Fs, dest: Path, root: Node)
    requires WellNamed(root)
    ensures OwnBytes(fs, dest, root) <==> SameBytes(fs, dest, KeptTree(root))
  {
    var items := KeptTree(root);
    if OwnBytes(fs, dest, root) {
      forall k | 0 <= k < |items| && items[k].node.File?
        ensures FileAt(fs, dest + items[k].path)
        ensures fs.data[fs.names[dest + items[k].path].inode] == items[k].node.content
      {
        ItemIsKept(root, k);
      }
    }
    if SameBytes(fs, dest, items) {
      forall p, n | KeptAt(root, p, n) && n.File?
        ensures FileAt(fs, dest + p) && fs.data[fs.names[dest + p].inode] == n.content
      {
        var k := IndexOf(root, p, n);
      }
    }
  }

  lemma {:induction false} AgreementByPath(root: Node)
    requires WellNamed(root)
    ensures LinksAgree(root) <==> InodesAgree(KeptTree(root))
  {
    var items := KeptTree(root);
    if LinksAgree(root) {
      forall k, l | 0 <= k < |items| && 0 <= l < |items| && Links(items[k], items[l])
        ensures items[k].node.content == items[l].node.content
      {
        ItemIsKept(root, k);
        ItemIsKept(root, l);
      }
    }
    if InodesAgree(items) {
      forall p, n, q, m | KeptAt(root, p, n) && KeptAt(root, q, m) && HardLinks(n, m)
        ensures n.content == m.content
      {
        var k := IndexOf(root, p, n);
        var l := IndexOf(root, q, m);
        assert Links(items[k], items[l]);
      }
    }
  }

  /** Every kept file has its own bytes. */
  ghost predicate SameBytes(fs: Fs, dest: Path, items: seq<Item>) {
    forall k :: 0 <= k < |items| && items[k].node.File? ==>
      FileAt(fs, dest + items[k].path) && fs.data[fs.names[dest + items[k].path].inode] == items[k].node.content
  }

  /** Linked files with one inode number have the same bytes. */
  ghost predicate InodesAgree(items: seq<Item>) {
    forall k, l :: 0 <= k < |items| && 0 <= l < |items| && Links(items[k], items[l]) ==>
      items[k].node.content == items[l].node.content
  }

  lemma BytesFollowReps(fs: Fs, dest: Path, items: seq<Item>)
    requires AllPlaced(fs, dest, items)
    ensures SameBytes(fs, dest, items) <==> InodesAgree(items)
  {
    if SameBytes(fs, dest, items) {
      forall k, l | 0 <= k < |items| && 0 <= l < |items| && Links(items[k], items[l])
        ensures items[k].node.content == items[l].node.content
      {
        SameRepExactly(items, k, l);
        assert Placed(fs, dest, items, k) && Placed(fs, dest, items, l);
      }
    }
    if InodesAgree(items) {
      forall k | 0 <= k < |items| && items[k].node.File?
        ensures FileAt(fs, dest + items[k].path)
        ensures fs.data[fs.names[dest + items[k].path].inode] == items[k].node.content
      {
        assert Placed(fs, dest, items, k);
        RepIsStable(items, k);
        SameRepExactly(items, k, Rep(items, k));
      }
    }
  }
}
