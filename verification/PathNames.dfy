/** Path resolution of exfat_open on names: a current directory remembered by the path that leads to it
    from the root, and `..` resolved by walking that path again. */
module PathNames {
  import opened Results
  import opened Words
  import opened Directory

  const SLASH: Byte := 47
  const DOT: Byte := 46
  const PATH_BUFLEN: nat := 256

  type Name = seq<Byte>

  /** The file system as a lookup of a name in the directory with a given first cluster and FAT flag. */
  type Finder = (nat, bool, Name) -> Option<Node>

  predicate IsDot(n: Name)
  {
    n == [DOT]
  }

  predicate IsDotDot(n: Name)
  {
    n == [DOT, DOT]
  }

  /** A name as it may stand in a stored path. */
  ghost predicate Clean(n: Name)
  {
    n != [] && SLASH !in n && 0 !in n && !IsDot(n) && !IsDotDot(n)
  }

  ghost predicate AllClean(names: seq<Name>)
  {
    forall i :: 0 <= i < |names| ==> Clean(names[i])
  }

  /** The stored form: each name after a slash, nothing for the root. */
  function Joined(names: seq<Name>): (r: seq<Byte>)
  {
    if names == [] then [] else var n := |names| - 1; Joined(names[..n]) + [SLASH] + names[n]
  }

  function DropLast(names: seq<Name>): (r: seq<Name>)
  {
    if names == [] then [] else names[..|names| - 1]
  }

  // ---------------------------------------------------------------- walking from the root

  /** The file that `names` lead to from the root. */
  ghost function RootWalk(t: Finder, root: Node, names: seq<Name>): (r: Option<Node>)
  {
    if names == [] then Some(root)
    else
      var n := |names| - 1;
      var d := RootWalk(t, root, names[..n]);
      if d.None? || !d.value.isDir then None else t(d.value.clus, d.value.useFat, names[n])
  }

  /** The same file; the length of a directory is not kept. */
  ghost predicate Same(a: Node, b: Node)
  {
    a.clus == b.clus && a.useFat == b.useFat && a.isDir == b.isDir && (!a.isDir ==> a.len == b.len)
  }

  // ---------------------------------------------------------------- one component

  datatype Errno = ENOENT | ENOTDIR | EISDIR | ENAMETOOLONG

  /** Where resolution stands: a file and the names stored for it. */
  datatype Spot = Spot(node: Node, names: seq<Name>)

  /** `Overrun`: the stored path no longer fits its buffer, which the code does not look at. `Wild`: the
      walk for `..` failed, which the code does not look at either. */
  datatype Progress = At(spot: Spot) | Failed(e: Errno) | Overrun | Wild

  ghost function Enter(t: Finder, root: Node, s: Spot, comp: Name): (r: Progress)
  {
    if comp == [] || IsDot(comp) then At(s)
    else if IsDotDot(comp) then
      var up := DropLast(s.names);
      var d := RootWalk(t, root, up);
      if d.Some? && d.value.isDir then At(Spot(Node(d.value.clus, d.value.useFat, true, 0), up)) else Wild
    else if !s.node.isDir then Failed(ENOTDIR)
    else
      match t(s.node.clus, s.node.useFat, comp)
      case None => Failed(ENOENT)
      case Some(n) =>
        if |Joined(s.names + [comp])| >= PATH_BUFLEN then Overrun else At(Spot(n, s.names + [comp]))
  }

  ghost function Resolve(t: Finder, root: Node, s: Spot, comps: seq<Name>): (r: Progress)
  {
    if comps == [] then At(s)
    else
      var n := |comps| - 1;
      var p := Resolve(t, root, s, comps[..n]);
      if p.At? then Enter(t, root, p.spot, comps[n]) else p
  }

  // ---------------------------------------------------------------- the meaning of a path

  /** The names that remain when `.`, `..` and empty components are worked off on the text alone. */
  ghost function Normal(names: seq<Name>, comps: seq<Name>): (r: seq<Name>)
  {
    if comps == [] then names
    else
      var n := |comps| - 1;
      var before := Normal(names, comps[..n]);
      if comps[n] == [] || IsDot(comps[n]) then before
      else if IsDotDot(comps[n]) then DropLast(before)
      else before + [comps[n]]
  }

  /** The stored names lead to the file, and fit. */
  ghost predicate SpotOk(t: Finder, root: Node, s: Spot)
  {
    && AllClean(s.names) && |Joined(s.names)| < PATH_BUFLEN
    && RootWalk(t, root, s.names).Some? && Same(s.node, RootWalk(t, root, s.names).value)
  }

  /** The parts between the slashes of a path. */
  ghost predicate AreParts(comps: seq<Name>)
  {
    forall i :: 0 <= i < |comps| ==> SLASH !in comps[i] && 0 !in comps[i]
  }

  lemma JoinedNext(names: seq<Name>, n: Name)
    ensures Joined(names + [n]) == Joined(names) + [SLASH] + n
  {
    assert (names + [n])[..|names|] == names;
  }

  lemma RootWalkNext(t: Finder, root: Node, names: seq<Name>, n: Name)
    ensures var d := RootWalk(t, root, names);
      RootWalk(t, root, names + [n]) == if d.None? || !d.value.isDir then None else t(d.value.clus, d.value.useFat, n)
  {
    assert (names + [n])[..|names|] == names;
  }

  /** Dropping the last name leads to a directory. */
  lemma ParentIsDir(t: Finder, root: Node, names: seq<Name>)
    requires root.isDir && RootWalk(t, root, names).Some?
    ensures var d := RootWalk(t, root, DropLast(names)); d.Some? && d.value.isDir
    ensures |Joined(DropLast(names))| <= |Joined(names)|
  {
  }

  /** One component: never wild, the names stored are the normal form, and they lead to the file. */
  lemma EnterKeeps(t: Finder, root: Node, s: Spot, comp: Name)
    requires root.isDir && SpotOk(t, root, s) && SLASH !in comp && 0 !in comp
    ensures var p := Enter(t, root, s, comp);
      !p.Wild? && (p.At? ==> SpotOk(t, root, p.spot) && p.spot.names == Normal(s.names, [comp]))
  {
    ParentIsDir(t, root, s.names);
    RootWalkNext(t, root, s.names, comp);
    assert Normal(s.names, [comp][..0]) == s.names;
  }

  lemma NormalNext(names: seq<Name>, comps: seq<Name>)
    requires comps != []
    ensures var n := |comps| - 1; Normal(names, comps) == Normal(Normal(names, comps[..n]), [comps[n]])
  {
    var last := [comps[|comps| - 1]];
    NormalNone(Normal(names, comps[..|comps| - 1]));
    assert last[..0] == [];
  }

  /** What success means: the names stored are the normal form of the path, they are clean, they fit, and
      walking them from the root leads to the file that was opened. */
  lemma {:induction false} ResolveKeeps(t: Finder, root: Node, s: Spot, comps: seq<Name>)
    requires root.isDir && SpotOk(t, root, s) && AreParts(comps)
    ensures var p := Resolve(t, root, s, comps);
      !p.Wild? && (p.At? ==> SpotOk(t, root, p.spot) && p.spot.names == Normal(s.names, comps))
    decreases |comps|
  {
    hide SpotOk, Enter, Normal;
    NormalNone(s.names);
    if comps != [] {
      var n := |comps| - 1;
      ResolveKeeps(t, root, s, comps[..n]);
      var p := Resolve(t, root, s, comps[..n]);
      if p.At? {
        EnterKeeps(t, root, p.spot, comps[n]);
        NormalNext(s.names, comps);
      }
    }
  }

  lemma NormalNone(names: seq<Name>)
    ensures Normal(names, []) == names
  {
  }

  /** The part of the path up to component `k` is there and its stored form fits. */
  ghost predicate Reached(t: Finder, root: Node, names: seq<Name>, comps: seq<Name>, k: nat)
    requires k <= |comps|
  {
    var so := Normal(names, comps[..k]);
    RootWalk(t, root, so).Some? && |Joined(so)| < PATH_BUFLEN
  }

  /** When a path is resolved at all: every initial part of it, in normal form, must exist and fit. */
  lemma {:induction false} ResolvesIff(t: Finder, root: Node, s: Spot, comps: seq<Name>)
    requires root.isDir && SpotOk(t, root, s) && AreParts(comps)
    ensures Resolve(t, root, s, comps).At? <==> forall k :: 0 <= k <= |comps| ==> Reached(t, root, s.names, comps, k)
    decreases |comps|
  {
    hide Enter, RootWalk, Normal, Joined;
    NormalNone(s.names);
    if comps == [] {
      assert comps[..0] == [];
    } else {
      var n := |comps| - 1;
      var before := comps[..n];
      ResolvesIff(t, root, s, before);
      ResolveKeeps(t, root, s, before);
      ReachedSplit(t, root, s.names, comps);
      NormalNext(s.names, comps);
      var p := Resolve(t, root, s, before);
      if p.At? {
        EnterIff(t, root, p.spot, comps[n]);
      }
    }
  }

  lemma ReachedSplit(t: Finder, root: Node, names: seq<Name>, comps: seq<Name>)
    requires comps != []
    ensures var n := |comps| - 1; var so := Normal(names, comps);
      (forall k :: 0 <= k <= |comps| ==> Reached(t, root, names, comps, k)) <==>
      (forall k :: 0 <= k <= n ==> Reached(t, root, names, comps[..n], k)) && RootWalk(t, root, so).Some? && |Joined(so)| < PATH_BUFLEN
  {
    hide RootWalk, Normal, Joined;
    var n := |comps| - 1;
    assert comps[..|comps|] == comps;
    forall k | 0 <= k <= n ensures Reached(t, root, names, comps, k) <==> Reached(t, root, names, comps[..n], k) {
      assert comps[..k] == comps[..n][..k];
    }
    var so := Normal(names, comps);
    assert Reached(t, root, names, comps, |comps|) <==> RootWalk(t, root, so).Some? && |Joined(so)| < PATH_BUFLEN;
  }

  lemma EnterIff(t: Finder, root: Node, s: Spot, comp: Name)
    requires root.isDir && SpotOk(t, root, s)
    ensures var so := Normal(s.names, [comp]);
      Enter(t, root, s, comp).At? <==> RootWalk(t, root, so).Some? && |Joined(so)| < PATH_BUFLEN
  {
    assert Normal(s.names, [comp][..0]) == s.names;
    ParentIsDir(t, root, s.names);
    RootWalkNext(t, root, s.names, comp);
  }

  /** Why a resolution stopped at component `k`: what the part before it leads to is not a directory, or has
      no such name, or the path with it is too long to store. */
  ghost predicate StopsAt(t: Finder, root: Node, names: seq<Name>, comps: seq<Name>, k: nat, p: Progress)
    requires k < |comps|
  {
    var d := RootWalk(t, root, Normal(names, comps[..k]));
    && Clean(comps[k]) && d.Some?
    && match p
       case Failed(e) =>
         if d.value.isDir then e == ENOENT && t(d.value.clus, d.value.useFat, comps[k]).None? else e == ENOTDIR
       case Overrun =>
         && d.value.isDir && t(d.value.clus, d.value.useFat, comps[k]).Some?
         && |Joined(Normal(names, comps[..k]) + [comps[k]])| >= PATH_BUFLEN
       case _ => false
  }

  /** Every failure has its reason, and the error code says which. */
  lemma {:induction false} FailureMeans(t: Finder, root: Node, s: Spot, comps: seq<Name>) returns (k: nat)
    requires root.isDir && SpotOk(t, root, s) && AreParts(comps) && !Resolve(t, root, s, comps).At?
    ensures k < |comps| && (forall j :: 0 <= j <= k ==> Reached(t, root, s.names, comps, j))
    ensures StopsAt(t, root, s.names, comps, k, Resolve(t, root, s, comps))
    decreases |comps|
  {
    hide Enter, RootWalk, Normal, Joined, Reached;
    var n := |comps| - 1;
    var before := comps[..n];
    var p := Resolve(t, root, s, before);
    if p.At? {
      k := n;
      ResolveKeeps(t, root, s, before);
      EnterFails(t, root, p.spot, comps[n]);
      ResolvesIff(t, root, s, before);
      forall j | 0 <= j <= n ensures Reached(t, root, s.names, comps, j) {
        ReachedBefore(t, root, s.names, comps, j);
      }
    } else {
      k := FailureMeans(t, root, s, before);
      assert before[..k] == comps[..k] && before[k] == comps[k];
      forall j | 0 <= j <= k ensures Reached(t, root, s.names, comps, j) {
        ReachedBefore(t, root, s.names, comps, j);
      }
    }
  }

  /** Resolution comes as far as component `k` and stops there because of `p`. */
  ghost predicate Stops(t: Finder, root: Node, names: seq<Name>, comps: seq<Name>, k: nat, p: Progress)
  {
    k < |comps| && StopsAt(t, root, names, comps, k, p) && forall j :: 0 <= j <= k ==> Reached(t, root, names, comps, j)
  }

  /** Exactly when a resolution ends in a given failure. */
  lemma StopIff(t: Finder, root: Node, s: Spot, comps: seq<Name>, p: Progress)
    requires root.isDir && SpotOk(t, root, s) && AreParts(comps) && (p.Failed? || p.Overrun?)
    ensures Resolve(t, root, s, comps) == p <==> exists k :: Stops(t, root, s.names, comps, k, p)
  {
    hide Enter, RootWalk, Normal, Joined, Resolve, Reached, StopsAt;
    if !Resolve(t, root, s, comps).At? {
      var k := FailureMeans(t, root, s, comps);
      assert Stops(t, root, s.names, comps, k, Resolve(t, root, s, comps));
      forall j: nat | Stops(t, root, s.names, comps, j, p) ensures Resolve(t, root, s, comps) == p {
        StopsOnce(t, root, s.names, comps, j, k, p, Resolve(t, root, s, comps));
      }
    }
    ResolvesIff(t, root, s, comps);
    forall j: nat | Stops(t, root, s.names, comps, j, p) ensures !Reached(t, root, s.names, comps, j + 1) {
      StopsUnreached(t, root, s.names, comps, j, p);
    }
  }

  /** When the stored path is overrun: at the first component that cannot be entered, which exists, because the path
      with it no longer fits. */
  lemma OverrunIff(t: Finder, root: Node, s: Spot, comps: seq<Name>)
    requires root.isDir && SpotOk(t, root, s) && AreParts(comps)
    ensures Resolve(t, root, s, comps).Overrun? <==> exists k :: Stops(t, root, s.names, comps, k, Overrun)
  {
    hide Resolve, Stops;
    StopIff(t, root, s, comps, Overrun);
  }

  /** A component that stops resolution is not reached. */
  lemma StopsUnreached(t: Finder, root: Node, names: seq<Name>, comps: seq<Name>, k: nat, p: Progress)
    requires k < |comps| && StopsAt(t, root, names, comps, k, p)
    ensures !Reached(t, root, names, comps, k + 1)
  {
    hide Normal, Joined, RootWalk;
    var before := Normal(names, comps[..k]);
    assert comps[..k + 1][..k] == comps[..k];
    NormalEnd(names, comps[..k + 1]);
    RootWalkNext(t, root, before, comps[k]);
  }

  lemma NormalEnd(names: seq<Name>, comps: seq<Name>)
    requires comps != [] && Clean(comps[|comps| - 1])
    ensures Normal(names, comps) == Normal(names, comps[..|comps| - 1]) + [comps[|comps| - 1]]
  {
  }

  /** Resolution stops at one component and for one reason. */
  lemma StopsOnce(t: Finder, root: Node, names: seq<Name>, comps: seq<Name>, j: nat, k: nat, p: Progress, q: Progress)
    requires Stops(t, root, names, comps, j, p) && Stops(t, root, names, comps, k, q)
    ensures p == q
  {
    hide Normal, Joined, RootWalk, Reached;
    StopsUnreached(t, root, names, comps, j, p);
    StopsUnreached(t, root, names, comps, k, q);
    assert j == k;
  }

  // ---------------------------------------------------------------- the algebra of paths

  /** Going on from where a path leads is going on with the path. */
  lemma {:induction false} NormalJoin(names: seq<Name>, a: seq<Name>, b: seq<Name>)
    ensures Normal(names, a + b) == Normal(Normal(names, a), b)
    decreases |b|
  {
    if b == [] {
      assert a + b == a;
    } else {
      var n := |b| - 1;
      NormalJoin(names, a, b[..n]);
      assert (a + b)[..|a| + n] == a + b[..n];
    }
  }

  /** Proper names are appended. */
  lemma {:induction false} NormalClean(names: seq<Name>, comps: seq<Name>)
    requires AllClean(comps)
    ensures Normal(names, comps) == names + comps
    decreases |comps|
  {
    if comps != [] {
      var n := |comps| - 1;
      NormalClean(names, comps[..n]);
      assert Clean(comps[n]);
      assert names + comps == names + comps[..n] + [comps[n]];
    }
  }

  /** Two dots undo a name and stay at the root; one dot, and nothing between two slashes, stay anywhere. */
  lemma NormalDots(names: seq<Name>, n: Name)
    requires Clean(n)
    ensures Normal(names, [n, [46, 46]]) == names && Normal(names + [n], [[46, 46]]) == names && Normal([], [[46, 46]]) == []
    ensures Normal(names, [[46]]) == names && Normal(names, [[]]) == names
  {
    NormalNone(names);
    var up: Name, here: Name := [46, 46], [46];
    assert [n, up][..1] == [n] && [n][..0] == [] && [up][..0] == [] && [here][..0] == [];
    assert (names + [n])[..|names|] == names;
  }

  lemma ReachedBefore(t: Finder, root: Node, names: seq<Name>, comps: seq<Name>, j: nat)
    requires comps != [] && j <= |comps| - 1
    ensures Reached(t, root, names, comps, j) <==> Reached(t, root, names, comps[..|comps| - 1], j)
  {
    assert comps[..|comps| - 1][..j] == comps[..j];
  }

  lemma EnterFails(t: Finder, root: Node, s: Spot, comp: Name)
    requires root.isDir && SpotOk(t, root, s) && SLASH !in comp && 0 !in comp && !Enter(t, root, s, comp).At?
    ensures Clean(comp) && !Enter(t, root, s, comp).Wild?
    ensures var d := RootWalk(t, root, s.names).value; var p := Enter(t, root, s, comp);
      && (p.Failed? ==> if d.isDir then p.e == ENOENT && t(d.clus, d.useFat, comp).None? else p.e == ENOTDIR)
      && (p.Overrun? ==> d.isDir && t(d.clus, d.useFat, comp).Some? && |Joined(s.names + [comp])| >= PATH_BUFLEN)
  {
    EnterKeeps(t, root, s, comp);
  }
}
