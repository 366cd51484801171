/** Walking a host root filesystem: the archive and its size.

    `TarTree` writes an archive of a directory tree and `DirSize` adds up file
    sizes in a walk of its own.  Both skip the kernel's mount points and other
    devices and count a hard-linked file once.  Here both are related to one
    list: the nodes that survive the skips, in walking order. */
module RootfsTree {
  import opened Options
  import opened Sequences
  import opened Framing
  import opened Strings
  import opened Words
  import Capacity

  type Path = seq<string>

  /** A file system node as the walk sees it; `Special` is a device node or a
      named pipe. */
  datatype Node =
    | Dir(dev: nat, children: seq<Child>)
    | File(dev: nat, ino: nat, nlink: nat, content: seq<Byte>)
    | Symlink(dev: nat, target: string)
    | Special(dev: nat)

  datatype Child = Child(name: string, node: Node)

  datatype Item = Item(path: Path, node: Node)

  function Parent(p: Path): Path
    requires p != []
  {
    p[..|p| - 1]
  }

  /** A name that a directory entry can have. */
  predicate PlainName(s: string) { s != "" && s != "." && s != ".." && '/' !in s }

  const SKIPPED: set<string> := {"proc", "sys", "dev", "run", "tmp"}

  /** filepath.Rel of a walked path, from its components. */
  function Rel(path: Path): string {
    if path == [] then "." else if |path| == 1 then path[0] else path[0] + "/" + Rel(path[1..])
  }

  /** SkipRootfsRel: by the part before the first slash. */
  predicate SkipRootfsRel(rel: string) { rel[..Slash(rel, 0)] in SKIPPED }

  /** That part is the first name on the path. */
  lemma {:induction false} SkipsByFirstName(path: Path)
    requires path != [] && '/' !in path[0]
    ensures SkipRootfsRel(Rel(path)) <==> path[0] in SKIPPED
  {
    var rel, k := Rel(path), Slash(Rel(path), 0);
    assert rel[..|path[0]|] == path[0];
    assert |path| > 1 ==> rel[|path[0]|] == '/';
    assert forall j :: 0 <= j < |path[0]| ==> rel[j] == path[0][j];
    assert k == |path[0]|;
  }

  /** On another device than the root; 0 means unknown. */
  predicate Foreign(dev: nat, rootDev: nat) { rootDev != 0 && dev != 0 && dev != rootDev }

  predicate Passes(path: Path, node: Node, rootDev: nat) {
    (path == [] || !SkipRootfsRel(Rel(path))) && !Foreign(node.dev, rootDev)
  }

  /** The name of the root itself is not skipped. */
  lemma DotPasses()
    ensures !SkipRootfsRel(".")
  {
    assert "."[..Slash(".", 0)] == ".";
  }

  /** The surviving nodes of a subtree, parents first. */
  function Kept(path: Path, node: Node, rootDev: nat): seq<Item>
    decreases node, 0
  {
    if !Passes(path, node, rootDev) then []
    else [Item(path, node)] + if node.Dir? then KeptChildren(path, node.children, rootDev) else []
  }

  function KeptChildren(path: Path, cs: seq<Child>, rootDev: nat): seq<Item>
    decreases cs, 1
  {
    if cs == [] then []
    else
      KeptChildren(path, cs[..|cs| - 1], rootDev)
      + Kept(path + [cs[|cs| - 1].name], cs[|cs| - 1].node, rootDev)
  }

  /** The surviving nodes below the root. */
  function KeptTree(root: Node): seq<Item> {
    if root.Dir? then KeptChildren([], root.children, root.dev) else []
  }

  // ---------------------------------------------------------------- the archive

  datatype Entry =
    | DirEntry(path: Path)
    | RegEntry(path: Path, content: seq<Byte>)
    | SymlinkEntry(path: Path, target: string)
    | LinkEntry(path: Path, link: Path)
    | OtherEntry(path: Path)

  predicate Linked(it: Item) { it.node.File? && it.node.nlink > 1 }

  /** The first of `items` that is a hard-linked file with this inode number. */
  function FirstLinked(items: seq<Item>, ino: nat): (r: Option<nat>)
    ensures r.Some? ==> r.value < |items| && Linked(items[r.value]) && items[r.value].node.ino == ino
  {
    if items == [] then None
    else
      var r := FirstLinked(items[..|items| - 1], ino);
      var it := items[|items| - 1];
      if r.Some? then r
      else if Linked(it) && it.node.ino == ino then Some(|items| - 1)
      else None
  }

  lemma {:induction false} FirstLinkedIsFirst(items: seq<Item>, j: nat)
    requires j < |items| && Linked(items[j])
    ensures var r := FirstLinked(items, items[j].node.ino); r.Some? && r.value <= j
  {
    if j < |items| - 1 {
      FirstLinkedIsFirst(items[..|items| - 1], j);
    }
  }

  /** The first path of each hard-linked inode, as the walk records it. */
  function LinkMap(items: seq<Item>): map<nat, Path> {
    if items == [] then map[]
    else
      var m, it := LinkMap(items[..|items| - 1]), items[|items| - 1];
      if Linked(it) && it.node.ino !in m then m[it.node.ino := it.path] else m
  }

  lemma {:induction false} LinkMapIsFirst(items: seq<Item>, ino: nat)
    ensures ino in LinkMap(items) <==> FirstLinked(items, ino).Some?
    ensures ino in LinkMap(items) ==> LinkMap(items)[ino] == items[FirstLinked(items, ino).value].path
  {
    if items != [] {
      LinkMapIsFirst(items[..|items| - 1], ino);
      LinkMapIsFirst(items[..|items| - 1], if items[|items| - 1].node.File? then items[|items| - 1].node.ino else 0);
    }
  }

  /** The archive entry of a node, given the nodes before it. */
  function EntryOf(before: seq<Item>, it: Item): Entry {
    match it.node
    case Dir(_, _) => DirEntry(it.path)
    case Symlink(_, target) => SymlinkEntry(it.path, target)
    case Special(_) => OtherEntry(it.path)
    case File(_, ino, _, content) =>
      if Linked(it) && FirstLinked(before, ino).Some?
      then LinkEntry(it.path, before[FirstLinked(before, ino).value].path)
      else RegEntry(it.path, content)
  }

  function Emit(items: seq<Item>): (es: seq<Entry>)
    ensures |es| == |items|
  {
    if items == [] then []
    else Emit(items[..|items| - 1]) + [EntryOf(items[..|items| - 1], items[|items| - 1])]
  }

  function Archive(root: Node): seq<Entry> { Emit(KeptTree(root)) }

  // ---------------------------------------------------------------- the size

  /** A file counts unless an earlier link to it was counted. */
  function SizeOf(items: seq<Item>): nat {
    if items == [] then 0
    else
      var before, it := items[..|items| - 1], items[|items| - 1];
      SizeOf(before) +
      if it.node.File? && !(Linked(it) && FirstLinked(before, it.node.ino).Some?) then |it.node.content| else 0
  }

  /** DirSize; a root that is itself a file is counted. */
  function TreeSize(root: Node): nat {
    if root.File? then |root.content| else SizeOf(KeptTree(root))
  }

  /** The bytes of file content in an archive. */
  function Payload(es: seq<Entry>): nat {
    if es == [] then 0
    else Payload(es[..|es| - 1]) + if es[|es| - 1].RegEntry? then |es[|es| - 1].content| else 0
  }

  lemma {:induction false} SizeIsPayload(items: seq<Item>)
    ensures SizeOf(items) == Payload(Emit(items))
  {
    if items != [] {
      SizeIsPayload(items[..|items| - 1]);
      var es := Emit(items);
      assert es[..|es| - 1] == Emit(items[..|items| - 1]);
    }
  }

  /** The two walks agree exactly when the root is not a file with content:
      that one is sized but not archived. */
  lemma SizeMatchesArchiveExactly(root: Node)
    ensures TreeSize(root) == Payload(Archive(root)) <==> !(root.File? && root.content != [])
  {
    SizeIsPayload(KeptTree(root));
  }

  /** The disk sized from the walk holds the archive's file bytes and 128 MiB
      more, whatever the root; for a directory exactly when the sum fits 64 bits. */
  lemma DiskHoldsArchive(root: Node, n: int)
    requires TreeSize(root) <= INT64_MAX && n <= Capacity.MAX_WORKLOADS
    ensures Capacity.Fits(TreeSize(root)) ==>
              Capacity.CapacityN(TreeSize(root), n) >= Payload(Archive(root)) + Capacity.USER_ROOTFS_SLACK
    ensures root.Dir? ==>
              (Capacity.CapacityN(TreeSize(root), n) >= Payload(Archive(root)) + Capacity.USER_ROOTFS_SLACK
               <==> Capacity.Fits(TreeSize(root)))
  {
    SizeMatchesArchiveExactly(root);
    Capacity.RoomForTheImage(TreeSize(root), n);
  }

  // ---------------------------------------------------------------- the walks

  /** What one more node adds to the archive, the link map and the size. */
  lemma {:induction false} OneMore(items: seq<Item>, it: Item)
    ensures Emit(items + [it]) == Emit(items) + [EntryOf(items, it)]
    ensures LinkMap(items + [it]) ==
            if Linked(it) && it.node.ino !in LinkMap(items) then LinkMap(items)[it.node.ino := it.path] else LinkMap(items)
    ensures SizeOf(items + [it]) ==
            SizeOf(items) +
            if it.node.File? && !(Linked(it) && FirstLinked(items, it.node.ino).Some?) then |it.node.content| else 0
  {
    assert (items + [it])[..|items|] == items;
  }

  /** A walk that starts by counting the root sizes the tree. */
  lemma {:induction false} SizeSkipsDirectory(it: Item, items: seq<Item>)
    requires it.node.Dir? || it.node.Symlink? || it.node.Special?
    ensures SizeOf([it] + items) == SizeOf(items)
    ensures forall ino :: FirstLinked([it] + items, ino).Some? <==> FirstLinked(items, ino).Some?
  {
    if items == [] {
      assert [it] + items == [it] && [it][..0] == [];
    } else {
      var all, before, last := [it] + items, items[..|items| - 1], items[|items| - 1];
      SizeSkipsDirectory(it, before);
      assert all[..|all| - 1] == [it] + before && all[|all| - 1] == last;
    }
  }

  lemma {:induction false} RootIsKeptFirst(root: Node)
    ensures SizeOf(Kept([], root, root.dev)) == TreeSize(root)
  {
    if root.File? {
      assert [Item([], root)][..0] == [];
    } else {
      SizeSkipsDirectory(Item([], root), KeptTree(root));
    }
  }

  /** The state of TarTree's walk. */
  class TarWriter {
    const rootDev: nat
    var hardlinks: map<nat, Path>
    var out: seq<Entry>
    ghost var items: seq<Item>

    ghost predicate Valid()
      reads this
    {
      out == Emit(items) && hardlinks == LinkMap(items)
    }

    constructor (rootDev: nat)
      ensures Valid() && items == [] && this.rootDev == rootDev
    {
      this.rootDev := rootDev;
      hardlinks, out, items := map[], [], [];
    }

    /** The callback past its skip checks. */
    method Write(path: Path, node: Node)
      requires Valid()
      modifies this
      ensures Valid() && items == old(items) + [Item(path, node)]
    {
      ghost var it := Item(path, node);
      OneMore(items, it);
      match node {
        case Dir(_, _) => out := out + [DirEntry(path)];
        case Symlink(_, target) => out := out + [SymlinkEntry(path, target)];
        case Special(_) => out := out + [OtherEntry(path)];
        case File(_, ino, nlink, content) =>
          LinkMapIsFirst(items, ino);
          if nlink > 1 && ino in hardlinks {
            out := out + [LinkEntry(path, hardlinks[ino])];
          } else {
            if nlink > 1 { hardlinks := hardlinks[ino := path]; }
            out := out + [RegEntry(path, content)];
          }
      }
      items := items + [it];
    }

    /** The walk of a subtree, with the callback's checks: the root itself is
        not written. */
    method Walk(path: Path, node: Node)
      requires Valid()
      modifies this
      ensures Valid()
      ensures path != [] ==> items == old(items) + Kept(path, node, rootDev)
      ensures path == [] && node.dev == rootDev ==> items == old(items) + KeptTree(node)
      decreases node, 0
    {
      if path != [] {
        if SkipRootfsRel(Rel(path)) || (rootDev != 0 && node.dev != 0 && node.dev != rootDev) {
          assert items == items + [];
          return;
        }
        Assoc(items, [Item(path, node)], if node.Dir? then KeptChildren(path, node.children, rootDev) else []);
        Write(path, node);
      }
      if node.Dir? {
        WalkChildren(path, node.children);
      } else {
        assert items == items + [];
      }
    }

    method WalkChildren(path: Path, cs: seq<Child>)
      requires Valid()
      modifies this
      ensures Valid() && items == old(items) + KeptChildren(path, cs, rootDev)
      decreases cs, 1
    {
      if cs == [] {
        assert items == items + [];
      } else {
        var init, last := cs[..|cs| - 1], cs[|cs| - 1];
        Assoc(items, KeptChildren(path, init, rootDev), Kept(path + [last.name], last.node, rootDev));
        WalkChildren(path, init);
        Walk(path + [last.name], last.node);
      }
    }
  }

  /** TarTree. */
  method TarTree(root: Node) returns (es: seq<Entry>)
    ensures es == Archive(root)
  {
    var w := new TarWriter(root.dev);
    w.Walk([], root);
    assert [] + KeptTree(root) == KeptTree(root);
    es := w.out;
  }

  /** The state of DirSize's walk. */
  class Sizer {
    const rootDev: nat
    var seen: set<nat>
    var total: nat
    ghost var items: seq<Item>

    ghost predicate Valid()
      reads this
    {
      total == SizeOf(items) && seen == LinkMap(items).Keys
    }

    constructor (rootDev: nat)
      ensures Valid() && items == [] && this.rootDev == rootDev
    {
      this.rootDev := rootDev;
      seen, total, items := {}, 0, [];
    }

    method Count(path: Path, node: Node)
      requires Valid()
      modifies this
      ensures Valid() && items == old(items) + [Item(path, node)]
    {
      ghost var it := Item(path, node);
      OneMore(items, it);
      LinkMapIsFirst(items, if node.File? then node.ino else 0);
      if node.File? && !(node.nlink > 1 && node.ino in seen) {
        if node.nlink > 1 { seen := seen + {node.ino}; }
        total := total + |node.content|;
      }
      items := items + [it];
    }

    /** The walk of a subtree, with the callback's own checks. */
    method Walk(path: Path, node: Node)
      requires Valid()
      modifies this
      ensures Valid() && items == old(items) + Kept(path, node, rootDev)
      decreases node, 0
    {
      var rel := Rel(path);
      DotPasses();
      if (rel != "." && SkipRootfsRel(rel)) || (rootDev != 0 && node.dev != 0 && node.dev != rootDev) {
        assert items == items + [];
        return;
      }
      Assoc(items, [Item(path, node)], if node.Dir? then KeptChildren(path, node.children, rootDev) else []);
      Count(path, node);
      if node.Dir? { WalkChildren(path, node.children); }
    }

    method WalkChildren(path: Path, cs: seq<Child>)
      requires Valid()
      modifies this
      ensures Valid() && items == old(items) + KeptChildren(path, cs, rootDev)
      decreases cs, 1
    {
      if cs == [] {
        assert items == items + [];
      } else {
        var init, last := cs[..|cs| - 1], cs[|cs| - 1];
        Assoc(items, KeptChildren(path, init, rootDev), Kept(path + [last.name], last.node, rootDev));
        WalkChildren(path, init);
        Walk(path + [last.name], last.node);
      }
    }
  }

  /** DirSize. */
  method DirSize(root: Node) returns (n: nat)
    ensures n == TreeSize(root)
  {
    var s := new Sizer(root.dev);
    s.Walk([], root);
    RootIsKeptFirst(root);
    assert [] + Kept([], root, root.dev) == Kept([], root, root.dev);
    n := s.total;
  }
}
