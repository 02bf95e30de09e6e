/** exfat_open: a path is taken apart as it is read, and each part is walked into. */
module PathOpen {
  import opened Results
  import opened Words
  import opened Directory
  import opened ExFat
  import opened FileSystem
  import opened PathNames
  import opened PathText

  // ---------------------------------------------------------------- the tree on the volume

  ghost predicate HasChain(v: Volume, c: nat, useFat: bool)
  {
    exists chain :: Terminated(v, c, useFat, chain)
  }

  ghost function ChainOf(v: Volume, c: nat, useFat: bool): (chain: seq<nat>)
    requires HasChain(v, c, useFat)
    ensures Terminated(v, c, useFat, chain)
  {
    var chain :| Terminated(v, c, useFat, chain); chain
  }

  /** What exfat_walk_dir finds in the directory that begins at cluster `c`. */
  ghost function Find(v: Volume, c: nat, useFat: bool, name: Name): (r: Option<Node>)
  {
    if HasChain(v, c, useFat) then WalkFrom(Entries(v, ChainOf(v, c, useFat)), 0, WALK_START, name) else None
  }

  ghost function FinderOf(v: Volume): (t: Finder)
  {
    (c: nat, useFat: bool, name: Name) => Find(v, c, useFat, name)
  }

  function RootNode(v: Volume): (n: Node)
  {
    Node(v.root, true, true, 0)
  }

  /** The directories of the volume: the root is one, all come to an end, and so do those found in them. */
  ghost predicate TreeOk(v: Volume, dirs: iset<(nat, bool)>)
  {
    && (v.root, true) in dirs
    && forall c, useFat :: (c, useFat) in dirs ==> HasChain(v, c, useFat) && Closed(v, dirs, c, useFat)
  }

  ghost predicate Closed(v: Volume, dirs: iset<(nat, bool)>, c: nat, useFat: bool)
  {
    forall name :: Find(v, c, useFat, name).Some? && Find(v, c, useFat, name).value.isDir ==>
      (Find(v, c, useFat, name).value.clus, Find(v, c, useFat, name).value.useFat) in dirs
  }

  lemma {:induction false} WalkInTree(v: Volume, dirs: iset<(nat, bool)>, names: seq<Name>)
    requires TreeOk(v, dirs)
    ensures var n := RootWalk(FinderOf(v), RootNode(v), names);
      n.Some? && n.value.isDir ==> (n.value.clus, n.value.useFat) in dirs && HasChain(v, n.value.clus, n.value.useFat)
    decreases |names|
  {
    hide Find, HasChain;
    if names != [] {
      var k := |names| - 1;
      WalkInTree(v, dirs, names[..k]);
      var d := RootWalk(FinderOf(v), RootNode(v), names[..k]);
      if d.Some? && d.value.isDir {
        assert Closed(v, dirs, d.value.clus, d.value.useFat);
        assert RootWalk(FinderOf(v), RootNode(v), names) == Find(v, d.value.clus, d.value.useFat, names[k]);
      }
    }
  }

  // ---------------------------------------------------------------- descriptors

  /** The fields of `struct file_desc` that an open sets. */
  datatype Fdesc = Fdesc(head: nat, useFat: bool, len: nat, path: seq<Byte>, isDir: bool)

  /** `Lost`: the stored path would not fit its 256 bytes; the code does not check, and the model ends
      there. */
  datatype OpenResult = Opened(fd: Fdesc) | Refused(e: Errno) | Lost

  /** The end of exfat_open. */
  ghost function Final(p: Progress, opendir: bool): (r: OpenResult)
  {
    match p
    case At(s) =>
      if opendir && !s.node.isDir then Refused(ENOTDIR)
      else if !opendir && s.node.isDir then Refused(EISDIR)
      else Opened(Fdesc(s.node.clus, s.node.useFat, s.node.len, Joined(s.names), s.node.isDir))
    case Failed(e) => Refused(e)
    case Overrun => Lost
    case Wild => Lost
  }

  /** Where the text ends, or 256 when it does not end before. */
  ghost function TextEnd(path: seq<Byte>, i: nat): (e: nat)
    requires i <= PATH_BUFLEN && i <= |path| && (0 in path[i..] || |path| >= PATH_BUFLEN) && 0 !in path[..i]
    ensures i <= e <= PATH_BUFLEN && e <= |path| && 0 !in path[..e] && (e < PATH_BUFLEN ==> EndsAt(path, e))
    decreases PATH_BUFLEN - i
  {
    if i == PATH_BUFLEN || path[i] == 0 then i
    else
      assert path[i..] == [path[i]] + path[i + 1..];
      assert path[..i + 1] == path[..i] + [path[i]];
      TextEnd(path, i + 1)
  }

  ghost predicate IsText(path: seq<Byte>)
  {
    0 in path || |path| >= PATH_BUFLEN
  }

  /** What exfat_open does, from the spot where resolution starts. A path without an end is worked off as
      far as its slashes go. */
  ghost function OpenFrom(t: Finder, root: Node, start: Spot, path: seq<Byte>, opendir: bool): (r: OpenResult)
    requires IsText(path)
  {
    assert path[0..] == path;
    var e := TextEnd(path, 0);
    if e < PATH_BUFLEN then Final(Resolve(t, root, start, Parts(path[..e])), opendir)
    else
      var p := Resolve(t, root, start, DropLast(Parts(path[..e])));
      if p.At? then Refused(ENAMETOOLONG) else Final(p, opendir)
  }

  // ---------------------------------------------------------------- the scan of the path

  /** Before character `i`: the parts `done` have been entered, which led to `spot`, and `name` is being
      read. */
  ghost predicate Scanned(t: Finder, root: Node, start: Spot, path: seq<Byte>, i: nat, done: seq<Name>, name: Name, spot: Spot)
  {
    && IsText(path) && i <= PATH_BUFLEN && i <= |path| && 0 !in path[..i]
    && Parts(path[..i]) == done + [name]
    && Resolve(t, root, start, done) == At(spot) && SpotOk(t, root, spot)
  }

  lemma ScanStart(t: Finder, root: Node, start: Spot, path: seq<Byte>)
    requires IsText(path) && SpotOk(t, root, start)
    ensures Scanned(t, root, start, path, 0, [], [], start)
  {
    hide SpotOk;
    PartsNone();
    assert path[..0] == [];
  }

  lemma MoreText(t: Finder, root: Node, start: Spot, path: seq<Byte>, i: nat, done: seq<Name>, name: Name, spot: Spot)
    requires Scanned(t, root, start, path, i, done, name, spot) && i < PATH_BUFLEN
    ensures i < |path|
  {
    assert path[..|path|] == path;
  }

  lemma ScanChar(t: Finder, root: Node, start: Spot, path: seq<Byte>, i: nat, done: seq<Name>, name: Name, spot: Spot)
    requires Scanned(t, root, start, path, i, done, name, spot) && i < PATH_BUFLEN && i < |path| && path[i] != 0 && path[i] != SLASH
    ensures Scanned(t, root, start, path, i + 1, done, name + [path[i]], spot)
  {
    hide SpotOk, Resolve, Parts;
    PartsNext(path[..i], path[i]);
    assert path[..i + 1] == path[..i] + [path[i]];
    assert (done + [name])[..|done|] == done;
  }

  lemma ResolveNext(t: Finder, root: Node, start: Spot, done: seq<Name>, name: Name, spot: Spot)
    requires Resolve(t, root, start, done) == At(spot)
    ensures Resolve(t, root, start, done + [name]) == Enter(t, root, spot, name)
  {
    assert (done + [name])[..|done|] == done;
  }

  lemma ScanPart(t: Finder, root: Node, start: Spot, path: seq<Byte>, i: nat, done: seq<Name>, name: Name, spot: Spot, next: Spot)
    requires Scanned(t, root, start, path, i, done, name, spot) && i < PATH_BUFLEN && i < |path| && path[i] == SLASH
    requires root.isDir && Enter(t, root, spot, name) == At(next)
    ensures Scanned(t, root, start, path, i + 1, done + [name], [], next)
  {
    hide SpotOk, Resolve, Parts, Enter;
    PartsNext(path[..i], path[i]);
    assert path[..i + 1] == path[..i] + [path[i]];
    ResolveNext(t, root, start, done, name, spot);
    NamePart(t, root, start, path, i, done, name, spot);
    EnterKeeps(t, root, spot, name);
  }

  lemma NamePart(t: Finder, root: Node, start: Spot, path: seq<Byte>, i: nat, done: seq<Name>, name: Name, spot: Spot)
    requires Scanned(t, root, start, path, i, done, name, spot)
    ensures SLASH !in name && 0 !in name
  {
    PartsAreParts(path[..i]);
    assert name == Parts(path[..i])[|done|];
  }

  /** A resolution that has failed stays failed. */
  lemma {:induction false} ResolveStuck(t: Finder, root: Node, start: Spot, comps: seq<Name>, more: seq<Name>)
    requires !Resolve(t, root, start, comps).At?
    ensures Resolve(t, root, start, comps + more) == Resolve(t, root, start, comps)
    decreases |more|
  {
    if more == [] {
      assert comps + more == comps;
    } else {
      var n := |more| - 1;
      ResolveStuck(t, root, start, comps, more[..n]);
      assert (comps + more)[..|comps| + n] == comps + more[..n];
    }
  }

  /** The parts of the whole text begin with the parts scanned when one has just come to its end. */
  lemma PartsAhead(path: seq<Byte>, i: nat, e: nat) returns (more: seq<Name>)
    requires i < e <= |path| && path[i] == SLASH
    ensures more != [] && Parts(path[..e]) == Parts(path[..i]) + more
  {
    more := Parts(path[i + 1..e]);
    PartsJoin(path[..i], path[i + 1..e]);
    assert path[..e] == path[..i] + [SLASH] + path[i + 1..e];
  }

  lemma TextEndAfter(path: seq<Byte>, i: nat)
    requires IsText(path) && i < PATH_BUFLEN && i < |path| && 0 !in path[..i]
    ensures path[0..] == path && i <= TextEnd(path, 0) && (TextEnd(path, 0) == i <==> path[i] == 0)
  {
    assert path[0..] == path;
    var e := TextEnd(path, 0);
    assert forall x :: 0 <= x < i ==> path[..i][x] == path[x];
    assert forall x :: 0 <= x < e ==> path[..e][x] == path[x];
  }

  /** The part just read cannot be entered: that is the answer. */
  lemma ScanFails(t: Finder, root: Node, start: Spot, path: seq<Byte>, i: nat, done: seq<Name>, name: Name, spot: Spot, opendir: bool)
    requires Scanned(t, root, start, path, i, done, name, spot) && i < PATH_BUFLEN && i < |path| && (path[i] == 0 || path[i] == SLASH)
    requires !Enter(t, root, spot, name).At?
    ensures OpenFrom(t, root, start, path, opendir) == Final(Enter(t, root, spot, name), opendir)
  {
    hide SpotOk, Parts, Resolve, Enter;
    var p := Enter(t, root, spot, name);
    ResolveNext(t, root, start, done, name, spot);
    TextEndAfter(path, i);
    var e := TextEnd(path, 0);
    if i < e {
      var more := PartsAhead(path, i, e);
      ResolveStuck(t, root, start, done + [name], more);
      ResolveStuck(t, root, start, done + [name], more[..|more| - 1]);
      assert DropLast(done + [name] + more) == done + [name] + more[..|more| - 1];
    }
  }

  /** The last part has been entered. */
  lemma ScanEnds(t: Finder, root: Node, start: Spot, path: seq<Byte>, i: nat, done: seq<Name>, name: Name, spot: Spot, opendir: bool)
    requires Scanned(t, root, start, path, i, done, name, spot) && i < PATH_BUFLEN && i < |path| && path[i] == 0
    ensures OpenFrom(t, root, start, path, opendir) == Final(Enter(t, root, spot, name), opendir)
  {
    hide SpotOk, Parts, Resolve, Enter;
    ResolveNext(t, root, start, done, name, spot);
    TextEndAfter(path, i);
  }

  lemma ScanTooLong(t: Finder, root: Node, start: Spot, path: seq<Byte>, done: seq<Name>, name: Name, spot: Spot, opendir: bool)
    requires Scanned(t, root, start, path, PATH_BUFLEN, done, name, spot)
    ensures OpenFrom(t, root, start, path, opendir) == Refused(ENAMETOOLONG)
  {
    hide SpotOk, Parts, Resolve;
    assert path[0..] == path;
    var e := TextEnd(path, 0);
    assert forall x :: 0 <= x < PATH_BUFLEN ==> path[..PATH_BUFLEN][x] == path[x];
    assert DropLast(done + [name]) == done;
  }

  // ---------------------------------------------------------------- `..`

  lemma {:induction false} ResolveClean(t: Finder, root: Node, names: seq<Name>)
    requires root.isDir && AllClean(names) && RootWalk(t, root, names).Some? && |Joined(names)| < PATH_BUFLEN
    ensures Resolve(t, root, Spot(root, []), names) == At(Spot(RootWalk(t, root, names).value, names))
    decreases |names|
  {
    if names != [] {
      var n := |names| - 1;
      ResolveClean(t, root, names[..n]);
      assert names[..n] + [names[n]] == names;
      assert Clean(names[n]);
    }
  }

  lemma {:induction false} ResolveAfterEmpty(t: Finder, root: Node, s: Spot, comps: seq<Name>)
    ensures Resolve(t, root, s, [[]] + comps) == Resolve(t, root, s, comps)
    decreases |comps|
  {
    var all := [[]] + comps;
    if comps == [] {
      assert all[..0] == [];
    } else {
      var n := |comps| - 1;
      ResolveAfterEmpty(t, root, s, comps[..n]);
      assert all[..n + 1] == [[]] + comps[..n];
    }
  }

  /** Opening a stored path as a directory leads to what the path leads to. */
  lemma OpenStored(t: Finder, root: Node, path: seq<Byte>, names: seq<Name>)
    requires root.isDir && AllClean(names) && |Joined(names)| < PATH_BUFLEN && |path| > |Joined(names)|
    requires path[..|Joined(names)|] == Joined(names) && path[|Joined(names)|] == 0
    requires RootWalk(t, root, names).Some? && RootWalk(t, root, names).value.isDir
    ensures var d := RootWalk(t, root, names).value;
      IsText(path) && OpenFrom(t, root, Spot(root, []), path, true) == Opened(Fdesc(d.clus, d.useFat, d.len, Joined(names), true))
  {
    hide Resolve, RootWalk, Clean, Joined;
    JoinedNoZero(names);
    var e := |Joined(names)|;
    TextEndAfter(path, e);
    PartsOfJoined(names);
    ResolveAfterEmpty(t, root, Spot(root, []), names);
    ResolveClean(t, root, names);
  }

  // ---------------------------------------------------------------- the code

  /** What entering one part of the path came to. */
  datatype Went = In(node: Node, len: nat) | Not(e: Errno) | Spilled

  ghost predicate WentTo(w: Went, p: Progress)
  {
    match p
    case At(s) => w.In? && w.node == s.node && w.len == |Joined(s.names)|
    case Failed(e) => w == Not(e)
    case Overrun => w == Spilled
    case Wild => false
  }

  /** A call that may meet `..` may make one that cannot. */
  ghost predicate RankOk(rank: nat, path: seq<Byte>, names: seq<Name>)
  {
    rank == 1 || (rank == 0 && AllClean(names) && |Joined(names)| < PATH_BUFLEN && |path| == PATH_BUFLEN
                  && path[..|Joined(names)|] == Joined(names) && path[|Joined(names)|] == 0)
  }

  /** The body of the loop of exfat_open for one part `name`. */
  method EnterName(f: Mount, cur: Node, buf: PathBuffer, len: nat, name: Name, ghost s: Spot, ghost dirs: iset<(nat, bool)>, ghost rank: nat)
    returns (w: Went)
    requires f.Valid() && TreeOk(f.v, dirs) && SpotOk(FinderOf(f.v), RootNode(f.v), s) && cur == s.node
    requires buf.Holds(Joined(s.names)) && len == |Joined(s.names)| && SLASH !in name && 0 !in name && (IsDotDot(name) ==> rank == 1)
    modifies f.disk, buf.buf
    ensures f.Valid() && WentTo(w, Enter(FinderOf(f.v), RootNode(f.v), s, name))
    ensures Enter(FinderOf(f.v), RootNode(f.v), s, name).At? ==>
      buf.Holds(Joined(Enter(FinderOf(f.v), RootNode(f.v), s, name).spot.names))
    decreases rank, 1
  {
    hide Mount.Valid, TreeOk, Find, RootWalk, Joined, Clean;
    if name == [] || name == [DOT] {
      return In(cur, len);
    }
    if name == [DOT, DOT] {
      w := Climb(f, buf, len, s, dirs, rank);
      return;
    }
    if !cur.isDir {
      return Not(ENOTDIR);
    }
    WalkInTree(f.v, dirs, s.names);
    var r := f.WalkDir(cur.clus, cur.useFat, name, ChainOf(f.v, cur.clus, cur.useFat));
    FindIs(f.v, cur.clus, cur.useFat, name);
    if r.None? {
      return Not(ENOENT);
    }
    JoinedNext(s.names, name);
    if len + 1 + |name| >= PATH_BUFLEN {
      return Spilled;
    }
    var more := buf.Push(name, Joined(s.names));
    return In(r.value, len + more);
  }

  lemma FindIs(v: Volume, c: nat, useFat: bool, name: Name)
    requires HasChain(v, c, useFat)
    ensures FinderOf(v)(c, useFat, name) == WalkFrom(Entries(v, ChainOf(v, c, useFat)), 0, WALK_START, name)
  {
  }

  /** `..`: the stored path is shortened and walked again from the root. */
  method Climb(f: Mount, buf: PathBuffer, len: nat, ghost s: Spot, ghost dirs: iset<(nat, bool)>, ghost rank: nat) returns (w: Went)
    requires f.Valid() && TreeOk(f.v, dirs) && SpotOk(FinderOf(f.v), RootNode(f.v), s) && rank == 1
    requires buf.Holds(Joined(s.names)) && len == |Joined(s.names)|
    modifies f.disk, buf.buf
    ensures f.Valid() && WentTo(w, Enter(FinderOf(f.v), RootNode(f.v), s, [DOT, DOT])) && w.In?
    ensures buf.Holds(Joined(DropLast(s.names)))
    decreases rank, 0
  {
    hide Mount.Valid, TreeOk, Find, RootWalk, Joined, Clean, OpenFrom;
    ParentIsDir(FinderOf(f.v), RootNode(f.v), s.names);
    var less := buf.Pop(len, s.names);
    ghost var up := DropLast(s.names);
    OpenStored(FinderOf(f.v), RootNode(f.v), buf.buf[..], up);
    StoredStart(f.v, buf.buf[..], up);
    var parent := Open(f, buf.buf[..], None, true, Spot(RootNode(f.v), []), dirs, 0, up);
    return In(Node(parent.fd.head, parent.fd.useFat, true, 0), len - less);
  }

  /** The current directory is where its stored path leads. */
  ghost predicate PwdOk(v: Volume, pwd: Option<Fdesc>, path: seq<Byte>, s: Spot)
  {
    && IsText(path) && |path| > 0 && SpotOk(FinderOf(v), RootNode(v), s) && s.node.isDir
    && (if path[0] == SLASH || path[0] == 0 then s == Spot(RootNode(v), [])
        else pwd.Some? && s.node == Node(pwd.value.head, pwd.value.useFat, true, 0) && pwd.value.path == Joined(s.names))
  }

  /** A stored path is opened from the root. */
  lemma StoredStart(v: Volume, path: seq<Byte>, names: seq<Name>)
    requires AllClean(names) && |Joined(names)| < PATH_BUFLEN == |path|
    requires path[..|Joined(names)|] == Joined(names) && path[|Joined(names)|] == 0
    ensures PwdOk(v, None, path, Spot(RootNode(v), []))
  {
    hide Clean;
    JoinedNoZero(names);
    var e := |Joined(names)|;
    assert e > 0 ==> path[0] == path[..e][0];
  }

  /** exfat_open. `s` is the spot it starts from: the root, or the current directory. */
  method Open(f: Mount, path: seq<Byte>, pwd: Option<Fdesc>, opendir: bool, ghost s: Spot, ghost dirs: iset<(nat, bool)>,
              ghost rank: nat, ghost names: seq<Name>) returns (r: OpenResult)
    requires f.Valid() && TreeOk(f.v, dirs) && PwdOk(f.v, pwd, path, s) && RankOk(rank, path, names)
    modifies f.disk
    ensures f.Valid() && r == OpenFrom(FinderOf(f.v), RootNode(f.v), s, path, opendir)
    decreases rank, 2
  {
    hide Mount.Valid, TreeOk, RootWalk, Joined, Clean, OpenFrom, Resolve, Enter, PathText.Parts;
    ghost var t, root := FinderOf(f.v), RootNode(f.v);
    JoinedNoZero(s.names);
    var cur, text;
    if path[0] == SLASH || path[0] == 0 {
      cur, text := RootNode(f.v), [];
      JoinedNone();
    } else {
      cur, text := Node(pwd.value.head, pwd.value.useFat, true, 0), pwd.value.path;
    }
    var buf := new PathBuffer(text);
    var len, i, name := |text|, 0, [];
    ghost var spot, done := s, [];
    ScanStart(t, root, s, path);
    while i < PATH_BUFLEN
      invariant f.Valid() && 0 <= i <= PATH_BUFLEN && Scanned(t, root, s, path, i, done, name, spot)
      invariant cur == spot.node && buf.Holds(Joined(spot.names)) && len == |Joined(spot.names)| && fresh(buf.buf)
    {
      MoreText(t, root, s, path, i, done, name, spot);
      if path[i] != SLASH && path[i] != 0 {
        ScanChar(t, root, s, path, i, done, name, spot);
        name := name + [path[i]];
      } else {
        NamePart(t, root, s, path, i, done, name, spot);
        NoDots(rank, t, root, s, path, i, done, name, spot, names);
        var w := EnterName(f, cur, buf, len, name, spot, dirs, rank);
        ghost var p := Enter(t, root, spot, name);
        if !w.In? {
          ScanFails(t, root, s, path, i, done, name, spot, opendir);
          return if w.Not? then Refused(w.e) else Lost;
        }
        if path[i] == 0 {
          ScanEnds(t, root, s, path, i, done, name, spot, opendir);
          if opendir && !w.node.isDir {
            return Refused(ENOTDIR);
          }
          if !opendir && w.node.isDir {
            return Refused(EISDIR);
          }
          return Opened(Fdesc(w.node.clus, w.node.useFat, w.node.len, buf.buf[..w.len], w.node.isDir));
        }
        ScanPart(t, root, s, path, i, done, name, spot, p.spot);
        done := done + [name];
        spot, cur, len, name := p.spot, w.node, w.len, [];
      }
      i := i + 1;
    }
    ScanTooLong(t, root, s, path, done, name, spot, opendir);
    return Refused(ENAMETOOLONG);
  }

  lemma JoinedNone()
    ensures Joined([]) == []
  {
  }

  /** A stored path has no `..` in it. */
  lemma NoDots(rank: nat, t: Finder, root: Node, start: Spot, path: seq<Byte>, i: nat, done: seq<Name>, name: Name, spot: Spot, names: seq<Name>)
    requires RankOk(rank, path, names) && Scanned(t, root, start, path, i, done, name, spot)
    requires i < PATH_BUFLEN && i < |path| && (path[i] == 0 || path[i] == SLASH)
    ensures IsDotDot(name) ==> rank == 1
  {
    hide Resolve, SpotOk, Joined;
    if rank == 0 {
      JoinedNoZero(names);
      var e := |Joined(names)|;
      TextEndAfter(path, e);
      TextEndAfter(path, i);
      PartsOfJoined(names);
      if i < e {
        var more := PartsAhead(path, i, e);
        assert name == ([[]] + names)[|done|];
      } else {
        assert name == ([[]] + names)[|done|];
      }
    }
  }

  // ---------------------------------------------------------------- what an open promises

  /** A successful open stores a clean path that fits, is the normal form of the path given, and leads from
      the root to the file opened, which is of the kind asked for. */
  lemma OpenedMeans(t: Finder, root: Node, s: Spot, path: seq<Byte>, opendir: bool) returns (names: seq<Name>)
    requires root.isDir && SpotOk(t, root, s) && IsText(path) && OpenFrom(t, root, s, path, opendir).Opened?
    ensures path[0..] == path && TextEnd(path, 0) < PATH_BUFLEN
    ensures names == Normal(s.names, Parts(path[..TextEnd(path, 0)])) && AllClean(names)
    ensures var fd := OpenFrom(t, root, s, path, opendir).fd; var n := RootWalk(t, root, names);
      && fd.path == Joined(names) && |fd.path| < PATH_BUFLEN && fd.isDir == opendir
      && n.Some? && Same(Node(fd.head, fd.useFat, fd.isDir, fd.len), n.value)
  {
    hide Resolve, RootWalk, Normal, Parts, Clean;
    assert path[0..] == path;
    var comps := Parts(path[..TextEnd(path, 0)]);
    PartsAreParts(path[..TextEnd(path, 0)]);
    ResolveKeeps(t, root, s, comps);
    names := Normal(s.names, comps);
  }

  /** A path that ends in time is opened exactly when every initial part of it is there and fits, and the
      file is of the kind asked for. */
  lemma OpenedIff(t: Finder, root: Node, s: Spot, path: seq<Byte>, opendir: bool)
    requires root.isDir && SpotOk(t, root, s) && IsText(path)
    ensures path[0..] == path
    ensures var e := TextEnd(path, 0); var comps := Parts(path[..e]); var n := RootWalk(t, root, Normal(s.names, comps));
      OpenFrom(t, root, s, path, opendir).Opened? <==>
        && e < PATH_BUFLEN && (forall k :: 0 <= k <= |comps| ==> Reached(t, root, s.names, comps, k))
        && n.Some? && n.value.isDir == opendir
  {
    hide Resolve, RootWalk, Normal, Parts, Clean;
    assert path[0..] == path;
    var e := TextEnd(path, 0);
    var comps := Parts(path[..e]);
    PartsAreParts(path[..e]);
    ResolveKeeps(t, root, s, comps);
    ResolvesIff(t, root, s, comps);
    assert comps[..|comps|] == comps;
    assert (forall k :: 0 <= k <= |comps| ==> Reached(t, root, s.names, comps, k)) ==> Reached(t, root, s.names, comps, |comps|);
    NotOpenedEarly(t, root, s, path, opendir);
  }

  lemma NotOpenedEarly(t: Finder, root: Node, s: Spot, path: seq<Byte>, opendir: bool)
    requires IsText(path)
    ensures path[0..] == path && (OpenFrom(t, root, s, path, opendir).Opened? ==> TextEnd(path, 0) < PATH_BUFLEN)
  {
    hide Resolve;
    assert path[0..] == path;
  }

  /** The components of a path that exfat_open comes to enter: all, or all but the last when it does not end in time. */
  ghost function Entered(path: seq<Byte>): (comps: seq<Name>)
    requires IsText(path)
    ensures AreParts(comps)
  {
    assert path[0..] == path;
    var e := TextEnd(path, 0);
    PartsAreParts(path[..e]);
    if e < PATH_BUFLEN then Parts(path[..e]) else DropLast(Parts(path[..e]))
  }

  /** An open overruns the stored path exactly if the first component it cannot enter exists and no longer fits. */
  lemma LostIff(t: Finder, root: Node, s: Spot, path: seq<Byte>, opendir: bool)
    requires root.isDir && SpotOk(t, root, s) && IsText(path)
    ensures OpenFrom(t, root, s, path, opendir) == Lost <==> exists k :: Stops(t, root, s.names, Entered(path), k, Overrun)
  {
    hide Resolve, SpotOk, Parts, Stops;
    assert path[0..] == path;
    ResolveKeeps(t, root, s, Entered(path));
    OverrunIff(t, root, s, Entered(path));
  }

  /** Every component the open comes to enter is there and fits. */
  ghost predicate AllReached(t: Finder, root: Node, names: seq<Name>, comps: seq<Name>)
  {
    forall k :: 0 <= k <= |comps| ==> Reached(t, root, names, comps, k)
  }

  ghost predicate Stopped(t: Finder, root: Node, names: seq<Name>, comps: seq<Name>, p: Progress)
  {
    exists k :: Stops(t, root, names, comps, k, p)
  }

  /** Which error an open gives: exactly when a component does not exist, when something on the way or what a directory
      was asked of is a file, when a file was asked of a directory, and when the path does not end in time. */
  lemma RefusedIff(t: Finder, root: Node, s: Spot, path: seq<Byte>, opendir: bool)
    requires root.isDir && SpotOk(t, root, s) && IsText(path)
    ensures path[0..] == path
    ensures var r := OpenFrom(t, root, s, path, opendir); var comps := Entered(path); var names := s.names;
      var ends := TextEnd(path, 0) < PATH_BUFLEN; var all := AllReached(t, root, names, comps);
      var n := RootWalk(t, root, Normal(names, comps));
      && (r == Refused(ENOENT) <==> Stopped(t, root, names, comps, Failed(ENOENT)))
      && (r == Refused(ENOTDIR) <==> Stopped(t, root, names, comps, Failed(ENOTDIR)) || (ends && all && opendir && n.Some? && !n.value.isDir))
      && (r == Refused(EISDIR) <==> ends && all && !opendir && n.Some? && n.value.isDir)
      && (r == Refused(ENAMETOOLONG) <==> !ends && all)
  {
    hide Resolve, SpotOk, Parts, Stops, RootWalk, Normal, Reached;
    assert path[0..] == path;
    var comps := Entered(path);
    StopIff(t, root, s, comps, Failed(ENOENT));
    StopIff(t, root, s, comps, Failed(ENOTDIR));
    FailedCodes(t, root, s, comps);
    ResolvesIff(t, root, s, comps);
    ResolveKeeps(t, root, s, comps);
    if Resolve(t, root, s, comps).At? {
      SpotLeads(t, root, Resolve(t, root, s, comps).spot);
    }
  }

  lemma SpotLeads(t: Finder, root: Node, s: Spot)
    requires SpotOk(t, root, s)
    ensures var n := RootWalk(t, root, s.names); n.Some? && n.value.isDir == s.node.isDir
  {
  }

  lemma FailedCodes(t: Finder, root: Node, s: Spot, comps: seq<Name>)
    requires root.isDir && SpotOk(t, root, s) && AreParts(comps)
    ensures var p := Resolve(t, root, s, comps); p.Failed? ==> p.e == ENOENT || p.e == ENOTDIR
  {
    hide Resolve, RootWalk, Normal, Reached, Joined;
    if Resolve(t, root, s, comps).Failed? {
      var k := FailureMeans(t, root, s, comps);
    }
  }

  // ---------------------------------------------------------------- changing directory

  /** A path that begins with a slash, or is empty, starts at the root. */
  ghost function StartOf(root: Node, s: Spot, path: seq<Byte>): (r: Spot)
    requires |path| > 0
  {
    if path[0] == SLASH || path[0] == 0 then Spot(root, []) else s
  }

  /** The current directory after sys_chdir: a path that cannot be opened as a directory changes nothing, and
      nothing is known once a stored path does not fit. */
  ghost function ChdirTo(t: Finder, root: Node, s: Spot, path: seq<Byte>): (r: Option<Spot>)
    requires IsText(path) && |path| > 0
  {
    var from := StartOf(root, s, path);
    match OpenFrom(t, root, from, path, true)
    case Opened(fd) =>
      assert path[0..] == path;
      Some(Spot(Node(fd.head, fd.useFat, true, 0), Normal(from.names, Parts(path[..TextEnd(path, 0)]))))
    case Refused(e) => Some(s)
    case Lost => None
  }

  ghost predicate AreTexts(paths: seq<seq<Byte>>)
  {
    forall i :: 0 <= i < |paths| ==> IsText(paths[i]) && |paths[i]| > 0
  }

  ghost function ChdirAll(t: Finder, root: Node, s: Spot, paths: seq<seq<Byte>>): (r: Option<Spot>)
    requires AreTexts(paths)
  {
    if paths == [] then Some(s)
    else
      var n := |paths| - 1;
      var before := ChdirAll(t, root, s, paths[..n]);
      if before.None? then None else ChdirTo(t, root, before.value, paths[n])
  }

  lemma ChdirToKeeps(t: Finder, root: Node, s: Spot, path: seq<Byte>)
    requires root.isDir && SpotOk(t, root, Spot(root, [])) && SpotOk(t, root, s) && s.node.isDir && IsText(path) && |path| > 0
    ensures var r := ChdirTo(t, root, s, path); r.Some? ==> SpotOk(t, root, r.value) && r.value.node.isDir
  {
    hide OpenFrom, RootWalk, Normal, Parts, Clean;
    var from := StartOf(root, s, path);
    if OpenFrom(t, root, from, path, true).Opened? {
      var names := OpenedMeans(t, root, from, path, true);
    }
  }

  /** Over every sequence of sys_chdir, absolute and relative, the stored path leads from the root to the current
      directory. */
  lemma {:induction false} ChdirKeeps(t: Finder, root: Node, s: Spot, paths: seq<seq<Byte>>)
    requires root.isDir && SpotOk(t, root, s) && s.node.isDir && AreTexts(paths)
    ensures var r := ChdirAll(t, root, s, paths); r.Some? ==> SpotOk(t, root, r.value) && r.value.node.isDir
    decreases |paths|
  {
    hide SpotOk, ChdirTo;
    if paths != [] {
      var n := |paths| - 1;
      ChdirKeeps(t, root, s, paths[..n]);
      var before := ChdirAll(t, root, s, paths[..n]);
      if before.Some? {
        RootSpotOk(t, root);
        ChdirToKeeps(t, root, before.value, paths[n]);
      }
    }
  }

  /** One name of a directory in the current one. */
  lemma ChdirName(t: Finder, root: Node, s: Spot, name: Name)
    requires root.isDir && SpotOk(t, root, s) && s.node.isDir && Clean(name) && |name| < PATH_BUFLEN
    requires t(s.node.clus, s.node.useFat, name).Some? && t(s.node.clus, s.node.useFat, name).value.isDir
    ensures IsText(name + [0])
    ensures var n := t(s.node.clus, s.node.useFat, name).value; var long := |Joined(s.names)| + 1 + |name| >= PATH_BUFLEN;
      ChdirTo(t, root, s, name + [0]) == if long then None else Some(Spot(Node(n.clus, n.useFat, true, 0), s.names + [name]))
  {
    hide Joined, SpotOk, OpenFrom, Parts, Normal, TextEnd;
    OneNameText(name);
    OpenName(t, root, s, name);
    JoinedNext(s.names, name);
    NormalOne(s.names, name);
  }

  lemma OneNameText(name: Name)
    requires Clean(name) && |name| < PATH_BUFLEN
    ensures var path := name + [0];
      && IsText(path) && path[0..] == path && path[0] == name[0] && TextEnd(path, 0) == |name| && Parts(path[..|name|]) == [name]
  {
    hide Parts;
    var path := name + [0];
    assert path[|name|] == 0 && path[..|name|] == name && path[0] == name[0];
    TextEndAfter(path, |name|);
    PartsOne(name);
  }

  lemma OpenName(t: Finder, root: Node, s: Spot, name: Name)
    requires Clean(name) && |name| < PATH_BUFLEN
    ensures IsText(name + [0]) && OpenFrom(t, root, s, name + [0], true) == Final(Enter(t, root, s, name), true)
  {
    hide Parts, Enter, TextEnd, Clean, Joined;
    OneNameText(name);
    ResolveNext(t, root, s, [], name, s);
    assert [] + [name] == [name];
  }

  lemma NormalOne(names: seq<Name>, name: Name)
    requires Clean(name)
    ensures Normal(names, [name]) == names + [name]
  {
    assert [name][..0] == [];
  }

  /** A path that begins with a slash leads from the root to what it names, wherever the process was. */
  lemma ChdirAbsolute(t: Finder, root: Node, s: Spot, names: seq<Name>)
    requires root.isDir && AllClean(names) && names != [] && |Joined(names)| < PATH_BUFLEN
    requires RootWalk(t, root, names).Some? && RootWalk(t, root, names).value.isDir
    ensures var path := Joined(names) + [0]; var n := RootWalk(t, root, names).value;
      IsText(path) && ChdirTo(t, root, s, path) == Some(Spot(Node(n.clus, n.useFat, true, 0), names))
  {
    hide OpenFrom, RootWalk, Clean, Joined, Parts, Normal;
    var path := Joined(names) + [0];
    JoinedNoZero(names);
    assert path[..|Joined(names)|] == Joined(names) && path[|Joined(names)|] == 0 && path[0] == Joined(names)[0];
    OpenStored(t, root, path, names);
    TextEndAfter(path, |Joined(names)|);
    PartsOfJoined(names);
    NormalJoin([], [[]], names);
    NormalClean([], names);
    EmptyStays();
    assert [] + names == names;
  }

  lemma EmptyStays()
    ensures Normal([], [[]]) == []
  {
    var none: seq<Name> := [[]];
    assert none[..0] == [];
  }

  lemma {:induction false} PartsOne(name: Name)
    requires SLASH !in name
    ensures Parts(name) == [name]
  {
    if name == [] {
      PartsNone();
    } else {
      var n := |name| - 1;
      PartsOne(name[..n]);
      PartsNext(name[..n], name[n]);
      assert name[..n] + [name[n]] == name;
    }
  }

  /** Two calls from the root, into a directory and into one inside it: the stored path is overrun exactly if both names
      together have 254 characters or more. */
  lemma TwoNames(t: Finder, root: Node, a: Name, b: Name)
    requires root.isDir && Clean(a) && Clean(b) && |a| < PATH_BUFLEN - 1 && |b| < PATH_BUFLEN
    requires RootWalk(t, root, [a]).Some? && RootWalk(t, root, [a]).value.isDir
    requires RootWalk(t, root, [a, b]).Some? && RootWalk(t, root, [a, b]).value.isDir
    ensures AreTexts([a + [0], b + [0]])
    ensures ChdirAll(t, root, Spot(root, []), [a + [0]]).Some?
    ensures ChdirAll(t, root, Spot(root, []), [a + [0], b + [0]]).None? <==> |a| + |b| >= PATH_BUFLEN - 2
  {
    hide ChdirTo;
    var s := Spot(root, []);
    RootSpotOk(t, root);
    WalkNames(t, root, a, b);
    ChdirName(t, root, s, a);
    var n := RootWalk(t, root, [a]).value;
    var s1 := Spot(Node(n.clus, n.useFat, true, 0), [a]);
    assert [] + [a] == [a];
    assert Joined([a]) == [SLASH] + a by {
      JoinedNext([], a);
    }
    ChdirName(t, root, s1, b);
    var one, two := [a + [0]], [a + [0], b + [0]];
    assert one[..0] == [] && two[..1] == one;
    assert ChdirAll(t, root, s, one) == Some(s1);
  }

  lemma WalkNames(t: Finder, root: Node, a: Name, b: Name)
    requires root.isDir && RootWalk(t, root, [a]).Some? && RootWalk(t, root, [a]).value.isDir
    ensures RootWalk(t, root, [a]) == t(root.clus, root.useFat, a)
    ensures var n := RootWalk(t, root, [a]).value; RootWalk(t, root, [a, b]) == t(n.clus, n.useFat, b)
  {
    RootWalkNext(t, root, [], a);
    assert [] + [a] == [a];
    RootWalkNext(t, root, [a], b);
    assert [a] + [b] == [a, b];
  }

  /** This happens with two names of 150 characters, where exFAT allows 255. */
  lemma OverrunHappens(t: Finder, root: Node)
    requires root == Node(2, true, true, 0) && t == ((c: nat, useFat: bool, name: Name) => Some(Node(c + 1, true, true, 0)))
    ensures var a, b := seq(150, _ => 97), seq(150, _ => 98); var paths := [a + [0], b + [0]];
      AreTexts(paths) && ChdirAll(t, root, Spot(root, []), paths[..1]).Some? && ChdirAll(t, root, Spot(root, []), paths).None?
  {
    hide ChdirAll;
    var a: Name, b: Name := seq(150, _ => 97), seq(150, _ => 98);
    assert Clean(a) && Clean(b);
    WalkAny(t, root, a, b);
    TwoNames(t, root, a, b);
    assert [a + [0], b + [0]][..1] == [a + [0]];
  }

  lemma WalkAny(t: Finder, root: Node, a: Name, b: Name)
    requires root == Node(2, true, true, 0) && t == ((c: nat, useFat: bool, name: Name) => Some(Node(c + 1, true, true, 0)))
    ensures RootWalk(t, root, [a]) == Some(Node(3, true, true, 0)) && RootWalk(t, root, [a, b]) == Some(Node(4, true, true, 0))
  {
    RootWalkNext(t, root, [], a);
    assert [] + [a] == [a];
    RootWalkNext(t, root, [a], b);
    assert [a] + [b] == [a, b];
  }

  lemma RootSpotOk(t: Finder, root: Node)
    ensures SpotOk(t, root, Spot(root, []))
  {
  }

  /** A process and its current directory. */
  class Shell {
    const f: Mount
    ghost const dirs: iset<(nat, bool)>
    var pwd: Fdesc
    ghost var at: Spot

    /** The stored path leads from the root to the current directory. */
    ghost predicate Inv()
      reads this, f, f.disk
    {
      && f.Valid() && TreeOk(f.v, dirs) && SpotOk(FinderOf(f.v), RootNode(f.v), at)
      && at.node == Node(pwd.head, pwd.useFat, true, 0) && pwd.path == Joined(at.names)
    }

    constructor (f: Mount, ghost dirs: iset<(nat, bool)>)
      requires f.Valid() && TreeOk(f.v, dirs)
      ensures this.f == f && Inv() && at.names == []
    {
      this.f := f;
      this.dirs := dirs;
      pwd := Fdesc(f.v.root, true, 0, [], true);
      at := Spot(RootNode(f.v), []);
    }

    /** sys_chdir: a directory that can be opened becomes the current one, and a refusal changes nothing. When the stored
        path is overrun the code installs a descriptor of which nothing is known. */
    method Chdir(path: seq<Byte>) returns (r: OpenResult)
      requires Inv() && IsText(path) && |path| > 0
      modifies this, f.disk
      ensures r != Lost ==> Inv()
      ensures r == OpenFrom(FinderOf(f.v), RootNode(f.v), StartOf(RootNode(f.v), old(at), path), path, true)
      ensures r != Lost ==> ChdirTo(FinderOf(f.v), RootNode(f.v), old(at), path) == Some(at)
      ensures r.Opened? ==> pwd == r.fd
      ensures r.Refused? ==> pwd == old(pwd) && at == old(at)
    {
      hide Mount.Valid, TreeOk, RootWalk, OpenFrom, Clean, Parts, Normal, TextEnd, Joined;
      ghost var from := StartOf(RootNode(f.v), at, path);
      RootSpotOk(FinderOf(f.v), RootNode(f.v));
      r := Open(f, path, Some(pwd), true, from, dirs, 1, []);
      if r.Opened? {
        ghost var names := OpenedMeans(FinderOf(f.v), RootNode(f.v), from, path, true);
        pwd := r.fd;
        at := Spot(Node(pwd.head, pwd.useFat, true, 0), names);
      } else if r == Lost {
        pwd, at := *, *;
      }
    }
  }

  // ---------------------------------------------------------------- the tree does not depend on the chains chosen

  lemma {:induction false} WalkPrefix(es: seq<Entry>, fs: seq<Entry>, i: nat, st: Walk, name: Name)
    requires AllOk(es) && AllOk(fs) && es <= fs && i <= |es| && End in es[i..]
    ensures WalkFrom(es, i, st, name) == WalkFrom(fs, i, st, name)
    decreases |es| - i
  {
    assert es[i..] == [es[i]] + es[i + 1..];
    if es[i] != End {
      WalkPrefix(es, fs, i + 1, WalkNext(st, es[i], name), name);
    }
  }

  lemma {:induction false} EntriesPrefix(v: Volume, a: seq<nat>, b: seq<nat>)
    requires a <= b && forall j :: 0 <= j < |b| ==> b[j] >= 2
    ensures Entries(v, a) <= Entries(v, b)
    decreases |b|
  {
    hide EntryIn, EntriesPerCluster;
    if |a| < |b| {
      EntriesPrefix(v, a, b[..|b| - 1]);
    } else {
      assert a == b;
    }
  }

  lemma {:induction false} ChainPrefix(v: Volume, c: nat, useFat: bool, a: seq<nat>, b: seq<nat>, j: nat)
    requires IsChain(v, c, useFat, a) && IsChain(v, c, useFat, b) && j <= |a| <= |b|
    ensures a[..j] == b[..j]
  {
    hide NextCluster;
    if j > 0 {
      ChainPrefix(v, c, useFat, a, b, j - 1);
      assert a[..j] == a[..j - 1] + [a[j - 1]] && b[..j] == b[..j - 1] + [b[j - 1]];
      assert a[j - 1] == Nth(v, c, useFat, a, j - 1) && b[j - 1] == Nth(v, c, useFat, b, j - 1);
      if j > 1 {
        assert a[j - 2] == a[..j - 1][j - 2] && b[j - 2] == b[..j - 1][j - 2];
      }
    }
  }

  lemma ShorterChain(v: Volume, c: nat, useFat: bool, a: seq<nat>, b: seq<nat>, name: Name)
    requires VolumeOk(v) && Terminated(v, c, useFat, a) && Terminated(v, c, useFat, b) && |a| <= |b|
    ensures WalkFrom(Entries(v, a), 0, WALK_START, name) == WalkFrom(Entries(v, b), 0, WALK_START, name)
  {
    hide NextCluster, Entries, WalkFrom;
    ChainPrefix(v, c, useFat, a, b, |a|);
    assert a[..|a|] == a && b[..|b|] == b;
    if |a| < |b| {
      assert b[|a|] == Nth(v, c, useFat, b, |a|) == Nth(v, c, useFat, a, |a|);
      EntriesPrefix(v, a, b);
      assert Entries(v, a)[0..] == Entries(v, a);
      WalkPrefix(Entries(v, a), Entries(v, b), 0, WALK_START, name);
    }
  }

  /** Whatever clusters one takes the directory to occupy, a lookup in it gives the same. */
  lemma FindAnyChain(v: Volume, c: nat, useFat: bool, chain: seq<nat>, name: Name)
    requires VolumeOk(v) && Terminated(v, c, useFat, chain)
    ensures Find(v, c, useFat, name) == WalkFrom(Entries(v, chain), 0, WALK_START, name)
  {
    hide Entries, WalkFrom, Terminated;
    var own := ChainOf(v, c, useFat);
    if |own| <= |chain| {
      ShorterChain(v, c, useFat, own, chain, name);
    } else {
      ShorterChain(v, c, useFat, chain, own, name);
    }
  }

  /** In a well-formed directory the lookup finds the first file of that name. */
  lemma FindIsLookup(v: Volume, c: nat, useFat: bool, chain: seq<nat>, items: seq<Item>, name: Name)
    requires VolumeOk(v) && Terminated(v, c, useFat, chain)
    requires (forall j :: 0 <= j < |chain| ==> chain[j] >= 2) && Describes(Entries(v, chain), 0, items)
    ensures Find(v, c, useFat, name) == Lookup(items, name)
  {
    hide Entries, Terminated, Describes;
    FindAnyChain(v, c, useFat, chain, name);
    WalkIs(Entries(v, chain), 0, WALK_START, name, items);
  }
}
