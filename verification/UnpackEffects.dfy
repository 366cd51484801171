/** What unpacking does to the guest's file system, entry by entry and over whole
    archives. */
module UnpackEffects {
  import opened Options
  import opened Words
  import opened RootfsTree
  import opened Unpack

  // ---------------------------------------------------------------- cleaning paths

  lemma {:induction false} ResolveIsClean(p: Path)
    ensures forall c :: c in Resolve(p) ==> c != "" && c != "." && c != ".." && c in p
  {
    if p != [] {
      var init, c := p[..|p| - 1], p[|p| - 1];
      ResolveIsClean(init);
      assert c in p && forall x :: x in init ==> x in p;
      var q := Resolve(init);
      assert forall x :: x in Resolve(p) ==> x in q || (x == c && c != "" && c != "." && c != "..");
    }
  }

  /** Cleaning goes from left to right. */
  lemma {:induction false} ResolveTail(p: Path, q: Path, tail: Path)
    requires Resolve(p) == Resolve(q)
    ensures Resolve(p + tail) == Resolve(q + tail)
  {
    if tail == [] {
      assert p + tail == p && q + tail == q;
    } else {
      var init, c := tail[..|tail| - 1], tail[|tail| - 1];
      ResolveTail(p, q, init);
      assert (p + tail)[..|p + tail| - 1] == p + init && (q + tail)[..|q + tail| - 1] == q + init;
      assert (p + tail)[|p + tail| - 1] == c == (q + tail)[|q + tail| - 1];
    }
  }

  lemma {:induction false} ResolveSnoc(p: Path, c: string)
    ensures Resolve(p + [c]) ==
            if c == "" || c == "." then Resolve(p)
            else if c != ".." then Resolve(p) + [c]
            else if Resolve(p) == [] then [] else Parent(Resolve(p))
  {
    assert (p + [c])[..|p|] == p;
  }

  /** Anywhere in a path: empty names and single dots do nothing, a double dot
      undoes the name before it, and at the top it does nothing. */
  lemma {:induction false} CleaningRules(p: Path, c: string, tail: Path)
    ensures Resolve(p + [""] + tail) == Resolve(p + tail) == Resolve(p + ["."] + tail)
    ensures c != "" && c != "." && c != ".." ==> Resolve(p + [c] + [".."] + tail) == Resolve(p + tail)
    ensures Resolve([".."] + tail) == Resolve(tail)
  {
    ResolveSnoc(p, "");
    ResolveTail(p + [""], p, tail);
    ResolveSnoc(p, ".");
    ResolveTail(p + ["."], p, tail);
    ResolveSnoc(p, c);
    ResolveSnoc(p + [c], "..");
    if c != "" && c != "." && c != ".." {
      ResolveTail(p + [c] + [".."], p, tail);
    }
    ResolveSnoc([], "..");
    assert [] + [".."] == [".."] && [] + tail == tail;
    ResolveTail([".."], [], tail);
  }

  /** A clean path stays. */
  lemma {:induction false} ResolveAgain(p: Path)
    ensures Resolve(Resolve(p)) == Resolve(p)
  {
    if p != [] {
      var init, c := p[..|p| - 1], p[|p| - 1];
      ResolveAgain(init);
      var q := Resolve(init);
      if c == ".." && q != [] {
        ResolveIsClean(init);
        assert q[|q| - 1] in q;
        assert q == q[..|q| - 1] + [q[|q| - 1]];
        ResolveSnoc(q[..|q| - 1], q[|q| - 1]);
      } else {
        ResolveSnoc(q, c);
      }
    }
  }

  /** So does its parent. */
  lemma {:induction false} CleanParent(p: Path)
    requires p != [] && Resolve(p) == p
    ensures Resolve(Parent(p)) == Parent(p)
  {
    ResolveIsClean(p);
    assert p[|p| - 1] in p;
    assert p == Parent(p) + [p[|p| - 1]];
    ResolveSnoc(Parent(p), p[|p| - 1]);
  }

  // ---------------------------------------------------------------- one entry

  /** MkdirAll makes the missing directories on the way and nothing else, and fails
      exactly when something else stands there. */
  lemma {:induction false} MkdirAllIs(fs: Fs, p: Path)
    ensures MkdirAll(fs, p).Some? ==>
              var g := MkdirAll(fs, p).value;
              && g.data == fs.data && g.next == fs.next
              && p in g.names && g.names[p] == DirObj
              && (forall q :: q in fs.names ==> q in g.names && g.names[q] == fs.names[q])
              && (forall q :: q in g.names && q !in fs.names ==> q <= p && g.names[q] == DirObj)
    decreases |p|
  {
    if p !in fs.names && p != [] {
      MkdirAllIs(fs, Parent(p));
      assert Parent(p) <= p;
    }
  }

  /** Outside `dest` all is as before, except that directories on the way to it may
      be new. */
  ghost predicate StaysBelow(fs: Fs, g: Fs, dest: Path) {
    && (forall q :: q in fs.names && !(dest <= q) ==> q in g.names && g.names[q] == fs.names[q])
    && (forall q :: q in g.names && q !in fs.names && !(dest <= q) ==> q <= dest && g.names[q] == DirObj)
  }

  lemma StaysBelowThen(a: Fs, b: Fs, c: Fs, dest: Path)
    requires StaysBelow(a, b, dest) && StaysBelow(b, c, dest)
    ensures StaysBelow(a, c, dest)
  {
  }

  lemma PrefixesCompare(q: Path, dest: Path, p: Path)
    requires q <= p && dest <= p
    ensures q <= dest || dest <= q
  {
    if |q| <= |dest| {
      assert forall i :: 0 <= i < |q| ==> q[i] == p[i] == dest[i];
    } else {
      assert forall i :: 0 <= i < |dest| ==> q[i] == p[i] == dest[i];
    }
  }

  lemma {:induction false} MkdirStaysBelow(fs: Fs, p: Path, dest: Path)
    requires (dest <= p || p == Parent'(dest)) && MkdirAll(fs, p).Some?
    ensures StaysBelow(fs, MkdirAll(fs, p).value, dest)
  {
    MkdirAllIs(fs, p);
    var g := MkdirAll(fs, p).value;
    forall q | q in g.names && q !in fs.names && !(dest <= q) ensures q <= dest && g.names[q] == DirObj {
      if dest <= p { PrefixesCompare(q, dest, p); }
    }
  }

  /** The parent, or the root itself. */
  ghost function Parent'(p: Path): Path { if p == [] then [] else Parent(p) }

  /** A regular file entry: its content is at the path afterwards, an existing file
      keeps its inode, so that its other links see the content, and no other
      file's bytes change. */
  lemma {:induction false} RegularFileIs(fs: Fs, dest: Path, p: Path, content: seq<Byte>)
    requires Apply(fs, dest, RegEntry(p, content)).Some?
    requires p == [] || !(".wh." <= p[|p| - 1])
    ensures var g, t := Apply(fs, dest, RegEntry(p, content)).value, Resolve(dest + p);
            && t in g.names && g.names[t].FileObj?
            && g.data == fs.data[g.names[t].inode := content]
            && (t in fs.names ==> g.names[t] == fs.names[t])
            && (t !in fs.names ==> g.names[t].inode == fs.next && g.next == fs.next + 1)
  {
    var t := Resolve(dest + p);
    MkdirAllIs(fs, Parent(t));
    assert !(t <= Parent(t));
  }

  /** A link entry replaces what it can and names the very file at its target. */
  lemma {:induction false} LinkIs(fs: Fs, dest: Path, p: Path, link: Path)
    requires Apply(fs, dest, LinkEntry(p, link)).Some?
    requires p == [] || !(".wh." <= p[|p| - 1])
    ensures var g, t, src := Apply(fs, dest, LinkEntry(p, link)).value, Resolve(dest + p), Resolve(dest + link);
            && src in fs.names && src != t && !fs.names[src].DirObj?
            && g == fs.(names := fs.names[t := fs.names[src]])
  {
    var t := Resolve(dest + p);
    assert (fs.names - {t})[t := fs.names[Resolve(dest + link)]] == fs.names[t := fs.names[Resolve(dest + link)]];
  }

  /** A symbolic link entry keeps its text as it is. */
  lemma {:induction false} SymlinkIs(fs: Fs, dest: Path, p: Path, to: string)
    requires Apply(fs, dest, SymlinkEntry(p, to)).Some?
    requires p == [] || !(".wh." <= p[|p| - 1])
    ensures Apply(fs, dest, SymlinkEntry(p, to)).value ==
            fs.(names := fs.names[Resolve(dest + p) := LinkObj(to)])
  {
    var t := Resolve(dest + p);
    assert (fs.names - {t})[t := LinkObj(to)] == fs.names[t := LinkObj(to)];
  }

  lemma WhiteoutName(name: string)
    requires PlainName(name)
    ensures var base := ".wh." + name;
            PlainName(base) && base[4..] == name && IsWhiteout(base) && (base == OPAQUE <==> name == ".wh..opq")
  {
    var base := ".wh." + name;
    assert base[0] == '.' && base[1] == 'w' && base[4..] == name;
    assert OPAQUE == ".wh." + ".wh..opq" && OPAQUE[4..] == ".wh..opq";
  }

  lemma WhiteoutRemoves(fs: Fs, dest: Path, dir: Path, name: string, e: Entry)
    requires PlainPath(dest + dir) && PlainName(name) && e.path == dir + [".wh." + name]
    ensures Apply(fs, dest, e) == Some(if name == ".wh..opq" then fs else RemoveAll(fs, dest + dir + [name]))
  {
    var base := ".wh." + name;
    WhiteoutName(name);
    var at, target := dest + dir, dest + dir + [base];
    assert dest + e.path == target && Base(e.path) == base;
    ResolvePlain(at);
    ResolveSnoc(at, base);
    ResolveSnoc(at, name);
    assert Parent(target) == at && dest <= target;
  }

  /** Nothing stands below the path. */
  ghost predicate NothingBelow(fs: Fs, p: Path) {
    forall q :: q in fs.names ==> !(p <= q) || q == p
  }

  lemma RemoveIs(fs: Fs, p: Path)
    ensures NothingBelow(fs, p) ==> Remove(fs, p).names == fs.names - {p}
    ensures !NothingBelow(fs, p) ==> Remove(fs, p) == fs
  {
    if q :| q in fs.names && p <= q && q != p { assert p < q; }
  }

  /** A symbolic link can be put exactly where there is a directory for it and
      nothing in the way but a file, a link or an empty directory. */
  lemma {:induction false} SymlinkSucceedsExactly(fs: Fs, dest: Path, p: Path, to: string)
    requires p == [] || !(".wh." <= p[|p| - 1])
    ensures var t := Resolve(dest + p);
            Apply(fs, dest, SymlinkEntry(p, to)).Some? <==>
            && dest <= t && t != [] && Parent(t) in fs.names && fs.names[Parent(t)] == DirObj
            && (t !in fs.names || NothingBelow(fs, t))
  {
    var t := Resolve(dest + p);
    RemoveIs(fs, t);
    if t != [] { assert Parent(t) != t; }
  }

  /** So can a hard link, if besides its target is a file or a symbolic link, and
      another path. */
  lemma {:induction false} LinkSucceedsExactly(fs: Fs, dest: Path, p: Path, link: Path)
    requires p == [] || !(".wh." <= p[|p| - 1])
    ensures var t, src := Resolve(dest + p), Resolve(dest + link);
            Apply(fs, dest, LinkEntry(p, link)).Some? <==>
            && dest <= t && t != [] && Parent(t) in fs.names && fs.names[Parent(t)] == DirObj
            && (t !in fs.names || NothingBelow(fs, t))
            && src in fs.names && src != t && fs.names[src] != DirObj
  {
    var t := Resolve(dest + p);
    RemoveIs(fs, t);
    if t != [] { assert Parent(t) != t; }
  }

  /** A whiteout takes away the sibling it names and all below it, and nothing
      else; the marker of an opaque directory does nothing. */
  lemma WhiteoutIs(fs: Fs, dest: Path, dir: Path, name: string, e: Entry)
    requires PlainPath(dest + dir) && PlainName(name) && e.path == dir + [".wh." + name]
    ensures Apply(fs, dest, e).Some?
    ensures var g := Apply(fs, dest, e).value;
            if name == ".wh..opq" then g == fs
            else
              && g.data == fs.data && g.next == fs.next
              && (forall q :: q in g.names <==> q in fs.names && !(dest + dir + [name] <= q))
              && (forall q :: q in g.names ==> g.names[q] == fs.names[q])
  {
    WhiteoutRemoves(fs, dest, dir, name, e);
  }

  /** An entry fails when its cleaned path leaves the destination. */
  lemma {:induction false} EscapeFails(fs: Fs, dest: Path, e: Entry)
    requires !(dest <= Resolve(dest + e.path))
    ensures Apply(fs, dest, e).None?
  {
  }

  // ---------------------------------------------------------------- whole archives

  /** The entry is no whiteout, or one whose name without the prefix is plain. */
  predicate Regular(e: Entry) {
    e.path != [] && ".wh." <= Base(e.path) ==> PlainName(Base(e.path)[4..])
  }

  /** A destination as given to unpackTar: a clean path that is not itself named
      like a whiteout. */
  predicate Destination(dest: Path) {
    Resolve(dest) == dest && (dest != [] ==> !(".wh." <= Base(dest)))
  }

  lemma WhiteoutStaysBelow(fs: Fs, dest: Path, e: Entry)
    requires Destination(dest) && Regular(e) && Apply(fs, dest, e).Some?
    requires e.path != [] && ".wh." <= Base(e.path)
    ensures StaysBelow(fs, Apply(fs, dest, e).value, dest)
  {
    var base, target := Base(e.path), Resolve(dest + e.path);
    assert dest + e.path == dest + Parent(e.path) + [base];
    assert base[0] == '.' && base[1] == 'w';
    ResolveSnoc(dest + Parent(e.path), base);
    ResolveAgain(dest + Parent(e.path));
    var dir := Resolve(dest + Parent(e.path));
    assert target == dir + [base] && Parent(target) == dir;
    ResolveSnoc(dir, base[4..]);
    assert target != dest;
    assert dest <= dir;
    var gone := dir + [base[4..]];
    assert dest <= gone;
  }

  lemma ApplyStaysBelow(fs: Fs, dest: Path, e: Entry)
    requires Destination(dest) && Regular(e) && Apply(fs, dest, e).Some?
    ensures StaysBelow(fs, Apply(fs, dest, e).value, dest)
  {
    var target := Resolve(dest + e.path);
    if e.path != [] && ".wh." <= Base(e.path) {
      WhiteoutStaysBelow(fs, dest, e);
    } else {
      match e
      case DirEntry(_) => MkdirStaysBelow(fs, target, dest);
      case OtherEntry(_) =>
      case RegEntry(_, _) =>
        if dest < target {
          assert dest <= Parent(target);
        } else {
          assert dest == target;
        }
        MkdirStaysBelow(fs, Parent(target), dest);
      case SymlinkEntry(p, to) => SymlinkIs(fs, dest, p, to);
      case LinkEntry(p, link) => LinkIs(fs, dest, p, link);
    }
  }

  /** Unpacking an archive changes nothing outside its destination, apart from
      making the directories that lead to it. */
  lemma {:induction false} UnpackStaysBelow(fs: Fs, dest: Path, es: seq<Entry>)
    requires Destination(dest) && (forall e :: e in es ==> Regular(e))
    requires ApplyAll(fs, dest, es).Some?
    ensures StaysBelow(fs, ApplyAll(fs, dest, es).value, dest)
  {
    if es != [] {
      var init, e := es[..|es| - 1], es[|es| - 1];
      assert e in es && forall x :: x in init ==> x in es;
      UnpackStaysBelow(fs, dest, init);
      var g := ApplyAll(fs, dest, init).value;
      ApplyStaysBelow(g, dest, e);
      StaysBelowThen(fs, g, Apply(g, dest, e).value, dest);
    }
  }
}
