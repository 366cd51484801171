/** Unpacking an archive in the guest.

    The file system is a map from absolute paths to directories, symbolic links
    and files; a file is a reference to an inode, so hard links are visible.
    Paths are sequences of components.  A symbolic link in the middle of a path
    is not followed: an operation that would have to is a failure here. */
module Unpack {
  import opened Options
  import opened Words
  import opened Framing
  import opened RootfsTree

  datatype Obj = DirObj | FileObj(inode: nat) | LinkObj(target: string)

  datatype Fs = Fs(names: map<Path, Obj>, data: map<nat, seq<Byte>>, next: nat)

  predicate IsDir(fs: Fs, p: Path) { p in fs.names && fs.names[p].DirObj? }

  function Base(p: Path): string
    requires p != []
  {
    p[|p| - 1]
  }

  // ---------------------------------------------------------------- paths

  /** filepath.Clean on the components of an absolute path. */
  function Resolve(p: Path): Path {
    if p == [] then []
    else
      var q, c := Resolve(p[..|p| - 1]), p[|p| - 1];
      if c == "" || c == "." then q
      else if c == ".." then (if q == [] then [] else q[..|q| - 1])
      else q + [c]
  }

  predicate PlainPath(p: Path) { forall c :: c in p ==> PlainName(c) }

  lemma {:induction false} ResolvePlain(p: Path)
    requires PlainPath(p)
    ensures Resolve(p) == p
  {
    if p != [] {
      assert p[|p| - 1] in p;
      ResolvePlain(p[..|p| - 1]);
      assert p == p[..|p| - 1] + [p[|p| - 1]];
    }
  }

  // ---------------------------------------------------------------- system calls

  function MkdirAll(fs: Fs, p: Path): Option<Fs>
    decreases |p|
  {
    if p in fs.names then (if fs.names[p].DirObj? then Some(fs) else None)
    else if p == [] then Some(fs.(names := fs.names[p := DirObj]))
    else
      match MkdirAll(fs, Parent(p))
      case None => None
      case Some(g) => Some(g.(names := g.names[p := DirObj]))
  }

  /** Create or truncate, then write; a link in the way is not followed. */
  function WriteFile(fs: Fs, p: Path, content: seq<Byte>): Option<Fs>
    requires p != []
  {
    if !IsDir(fs, Parent(p)) then None
    else if p !in fs.names then
      Some(Fs(fs.names[p := FileObj(fs.next)], fs.data[fs.next := content], fs.next + 1))
    else if fs.names[p].FileObj? then Some(fs.(data := fs.data[fs.names[p].inode := content]))
    else None
  }

  /** Removes a file, a link or an empty directory; errors are ignored. */
  function Remove(fs: Fs, p: Path): Fs {
    if exists q :: q in fs.names && p < q then fs else fs.(names := fs.names - {p})
  }

  function RemoveAll(fs: Fs, p: Path): Fs {
    fs.(names := map q | q in fs.names && !(p <= q) :: fs.names[q])
  }

  function MakeSymlink(fs: Fs, target: string, p: Path): Option<Fs>
    requires p != []
  {
    if p in fs.names || !IsDir(fs, Parent(p)) then None else Some(fs.(names := fs.names[p := LinkObj(target)]))
  }

  function MakeLink(fs: Fs, src: Path, p: Path): Option<Fs>
    requires p != []
  {
    if src !in fs.names || fs.names[src].DirObj? || p in fs.names || !IsDir(fs, Parent(p)) then None
    else Some(fs.(names := fs.names[p := fs.names[src]]))
  }

  // ---------------------------------------------------------------- unpackTar

  const WHITEOUT := ".wh."
  const OPAQUE := ".wh..wh..opq"

  predicate IsWhiteout(name: string) { WHITEOUT <= name }

  /** One archive entry.  Entries at `dest` itself only matter as directories. */
  function Apply(fs: Fs, dest: Path, e: Entry): Option<Fs> {
    var target := Resolve(dest + e.path);
    if !(dest <= target) then None                            // the path escapes the root
    else if e.path != [] && Base(e.path) == OPAQUE then Some(fs)
    else if e.path != [] && IsWhiteout(Base(e.path)) then
      (if target == [] then Some(fs)
       else Some(RemoveAll(fs, Resolve(Parent(target) + [Base(e.path)[4..]]))))
    else
      match e
      case DirEntry(_) => MkdirAll(fs, target)
      case OtherEntry(_) => Some(fs)
      case RegEntry(_, content) =>
        if target == [] then None
        else
          var g := MkdirAll(fs, Parent(target));
          if g.None? then None else WriteFile(g.value, target, content)
      case SymlinkEntry(_, to) =>
        if target == [] then None else MakeSymlink(Remove(fs, target), to, target)
      case LinkEntry(_, link) =>
        if target == [] then None else MakeLink(Remove(fs, target), Resolve(dest + link), target)
  }

  function ApplyAll(fs: Fs, dest: Path, es: seq<Entry>): Option<Fs> {
    if es == [] then Some(fs)
    else
      match ApplyAll(fs, dest, es[..|es| - 1])
      case None => None
      case Some(g) => Apply(g, dest, es[|es| - 1])
  }

  class Guest {
    var fs: Fs

    /** unpackTar: stops at the first entry that fails. */
    method UnpackTar(dest: Path, es: seq<Entry>) returns (ok: bool)
      modifies this
      ensures ok <==> ApplyAll(old(fs), dest, es).Some?
      ensures ok ==> Some(fs) == ApplyAll(old(fs), dest, es)
    {
      for i := 0 to |es|
        invariant Some(fs) == ApplyAll(old(fs), dest, es[..i])
      {
        assert es[..i + 1][..i] == es[..i] && es[..i + 1][i] == es[i];
        var next := Apply(fs, dest, es[i]);
        if next.None? {
          FailureIsFinal(old(fs), dest, es, i + 1);
          return false;
        }
        fs := next.value;
      }
      assert es[..|es|] == es;
      return true;
    }
  }

  lemma {:induction false} FailureIsFinal(fs: Fs, dest: Path, es: seq<Entry>, i: nat)
    requires i <= |es| && ApplyAll(fs, dest, es[..i]).None?
    ensures ApplyAll(fs, dest, es).None?
    decreases |es| - i
  {
    if i == |es| {
      assert es[..i] == es;
    } else {
      assert es[..i + 1][..i] == es[..i];
      FailureIsFinal(fs, dest, es, i + 1);
    }
  }
}
