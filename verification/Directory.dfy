/** exFAT directories: what the entry-by-entry scans of kernel/fs/exfat.c make of a sequence of entries,
    and what a well-formed directory means. */
module Directory {
  import opened Results
  import opened Words

  const NAME_CHARS: nat := 15

  /** An entry, as far as the scans look at it; of each name character only the low byte. */
  datatype Entry =
    | End
    | FileEntry(isDir: bool)
    | StreamExt(clus: nat, nameLen: nat, len: nat, useFat: bool)
    | FileName(chars: seq<Byte>)
    | Other

  /** A file or directory as a scan finds it. */
  datatype Node = Node(clus: nat, useFat: bool, isDir: bool, len: nat)

  /** to_upper_case. */
  function Upper(c: Byte): (r: Byte)
  {
    if 97 <= c <= 122 then c - 32 else c
  }

  /** Folding identifies the two cases of the letters A to Z, and nothing else. */
  lemma UpperSame(a: Byte, b: Byte)
    ensures Upper(a) == Upper(b) <==> a == b || (65 <= a <= 90 && b == a + 32) || (65 <= b <= 90 && a == b + 32)
  {
  }

  /** Equal under ASCII case folding. */
  predicate SameName(a: seq<Byte>, b: seq<Byte>)
  {
    |a| == |b| && forall i :: 0 <= i < |a| ==> Upper(a[i]) == Upper(b[i])
  }

  function Min3(a: nat, b: nat, c: nat): (r: nat)
  {
    if a <= b && a <= c then a else if b <= c then b else c
  }

  // ---------------------------------------------------------------- looking up a name

  /** What exfat_walk_dir carries from entry to entry. Once the names differ the position in them is of
      no interest. */
  datatype Walk = Walk(ptr: nat, differs: bool, isDir: bool, clus: nat, useFat: bool, len: nat, nameLen: nat)

  const WALK_START: Walk := Walk(0, false, false, 0, false, 0, 0)

  /** Name characters from `ptr` on agree with `chars` as far as both reach. */
  predicate Agree(name: seq<Byte>, ptr: nat, chars: seq<Byte>, n: nat)
    requires ptr + n <= |name| && n <= |chars|
  {
    forall k :: 0 <= k < n ==> Upper(name[ptr + k]) == Upper(chars[k])
  }

  ghost predicate EntryOk(e: Entry)
  {
    e.FileName? ==> |e.chars| == NAME_CHARS
  }

  ghost function WalkNext(st: Walk, e: Entry, name: seq<Byte>): (r: Walk)
    requires EntryOk(e)
  {
    match e
    case FileEntry(isDir) => st.(ptr := 0, differs := false, isDir := isDir)
    case StreamExt(clus, nameLen, len, useFat) => st.(clus := clus, nameLen := nameLen, len := len, useFat := useFat)
    case FileName(chars) =>
      if st.differs || st.ptr >= st.nameLen || st.ptr >= |name| then st
      else
        var n := Min3(NAME_CHARS, st.nameLen - st.ptr, |name| - st.ptr);
        if Agree(name, st.ptr, chars, n) then st.(ptr := st.ptr + n) else st.(ptr := 0, differs := true)
    case _ => st
  }

  ghost predicate Matched(st: Walk, e: Entry, name: seq<Byte>)
  {
    e.FileName? && !st.differs && st.ptr == st.nameLen == |name|
  }

  ghost function Found(st: Walk): (n: Node)
  {
    Node(st.clus, st.useFat, st.isDir, st.len)
  }

  /** exfat_walk_dir over the entries from `i` on. */
  ghost function WalkFrom(es: seq<Entry>, i: nat, st: Walk, name: seq<Byte>): (r: Option<Node>)
    requires i <= |es| && AllOk(es)
    decreases |es| - i
  {
    if i == |es| || es[i] == End then None
    else
      var next := WalkNext(st, es[i], name);
      if Matched(next, es[i], name) then Some(Found(next)) else WalkFrom(es, i + 1, next, name)
  }

  // ---------------------------------------------------------------- listing

  datatype Dirent = Dirent(name: seq<Byte>, isDir: bool, ino: nat, len: nat)

  /** What exfat_read_dir carries from entry to entry within one call. */
  datatype List = List(ptr: nat, nameLen: nat, out: Dirent)

  ghost function ListNext(st: List, e: Entry): (r: List)
    requires EntryOk(e)
  {
    match e
    case FileEntry(isDir) => st.(ptr := 0, out := st.out.(isDir := isDir))
    case StreamExt(clus, nameLen, len, useFat) => st.(nameLen := nameLen, out := st.out.(ino := clus, len := len))
    case FileName(chars) =>
      var n := if st.nameLen <= st.ptr then 0 else if st.nameLen - st.ptr < NAME_CHARS then st.nameLen - st.ptr else NAME_CHARS;
      var keep := if st.ptr <= |st.out.name| then st.out.name[..st.ptr] else st.out.name;
      st.(ptr := st.ptr + n, out := st.out.(name := keep + chars[..n]))
    case _ => st
  }

  ghost predicate Filled(st: List, e: Entry)
  {
    e.FileName? && st.ptr == st.nameLen
  }

  /** One call of exfat_read_dir from entry `i` on: the entry listed and where to go on, or the end. */
  ghost function ListFrom(es: seq<Entry>, i: nat, st: List): (r: Option<(Dirent, nat)>)
    requires i <= |es| && AllOk(es)
    decreases |es| - i
    ensures r.Some? ==> i < r.value.1 <= |es|
  {
    if i == |es| || es[i] == End then None
    else
      var next := ListNext(st, es[i]);
      if Filled(next, es[i]) then Some((next.out, i + 1)) else ListFrom(es, i + 1, next)
  }

  /** The state a call starts from; `dst` is the caller's buffer. */
  ghost function ListStart(dst: Dirent): (st: List)
  {
    List(0, 0, dst)
  }

  // ---------------------------------------------------------------- well-formed directories

  /** A part of a directory: an entry of no interest (unused, deleted, a bitmap, a label), or the entry set
      of one file, whose name entries hold `pieces`. */
  datatype Item = Junk | Set(name: seq<Byte>, node: Node, pieces: seq<seq<Byte>>)

  /** `pieces` hold the name in order, fifteen characters each, the last one padded. */
  ghost predicate PiecesOk(pieces: seq<seq<Byte>>, name: seq<Byte>)
    decreases |name|
  {
    && |pieces| > 0 && |pieces[0]| == NAME_CHARS && |name| > 0
    && (if |name| <= NAME_CHARS then |pieces| == 1 && pieces[0][..|name|] == name
        else pieces[0] == name[..NAME_CHARS] && PiecesOk(pieces[1..], name[NAME_CHARS..]))
  }

  ghost function Size(it: Item): (n: nat)
    ensures n > 0
  {
    if it.Junk? then 1 else 2 + |it.pieces|
  }

  ghost predicate Names(es: seq<Entry>, i: nat, pieces: seq<seq<Byte>>)
  {
    i + |pieces| <= |es| && forall x :: i <= x < i + |pieces| ==> es[x] == FileName(pieces[x - i])
  }

  /** The entries of `it` stand at `i`. */
  ghost predicate ItemAt(es: seq<Entry>, i: nat, it: Item)
  {
    if it.Junk? then i < |es| && es[i] == Other
    else
      && PiecesOk(it.pieces, it.name) && i + Size(it) <= |es|
      && es[i] == FileEntry(it.node.isDir)
      && es[i + 1] == StreamExt(it.node.clus, |it.name|, it.node.len, it.node.useFat)
      && Names(es, i + 2, it.pieces)
  }

  /** From `i` on the directory is `items` and then ends. */
  ghost predicate Describes(es: seq<Entry>, i: nat, items: seq<Item>)
    decreases |items|
  {
    i <= |es| &&
    if items == [] then i == |es| || es[i] == End
    else ItemAt(es, i, items[0]) && Describes(es, i + Size(items[0]), items[1..])
  }

  ghost predicate AllOk(es: seq<Entry>)
  {
    forall k :: 0 <= k < |es| ==> EntryOk(es[k])
  }

  // ---------------------------------------------------------------- lookup on well-formed directories

  /** The first file of that name. */
  ghost function Lookup(items: seq<Item>, name: seq<Byte>): (r: Option<Node>)
  {
    if items == [] then None
    else if items[0].Set? && SameName(items[0].name, name) then Some(items[0].node)
    else Lookup(items[1..], name)
  }

  /** Where the comparison stands after `p` characters of the file's name. */
  ghost predicate Compared(st: Walk, full: seq<Byte>, name: seq<Byte>, p: nat)
  {
    && p <= |full| && st.nameLen == |full|
    && if st.differs then !SameName(full, name)
       else
         && st.ptr == (if p < |name| then p else |name|)
         && forall k :: 0 <= k < st.ptr ==> Upper(full[k]) == Upper(name[k])
  }

  /** One name entry that agrees with the name looked for, and one that does not. */
  lemma CompareAgrees(full: seq<Byte>, name: seq<Byte>, p: nat, chars: seq<Byte>, m: nat)
    requires p + m <= |full| && p + m <= |name| && m <= |chars| && chars[..m] == full[p..p + m]
    requires forall k :: 0 <= k < p ==> Upper(full[k]) == Upper(name[k])
    ensures Agree(name, p, chars, m) ==> forall k :: 0 <= k < p + m ==> Upper(full[k]) == Upper(name[k])
    ensures !Agree(name, p, chars, m) ==> !SameName(full, name)
  {
    hide Upper;
    assert forall k :: 0 <= k < m ==> chars[k] == chars[..m][k] == full[p..p + m][k] == full[p + k];
    if Agree(name, p, chars, m) {
      forall k | p <= k < p + m ensures Upper(full[k]) == Upper(name[k]) {
        var l := k - p;
        assert Upper(name[p + l]) == Upper(chars[l]);
      }
    } else {
      var k :| 0 <= k < m && Upper(name[p + k]) != Upper(chars[k]);
      var x := p + k;
      assert Upper(full[x]) != Upper(name[x]);
    }
  }

  /** One name entry. */
  lemma CompareNext(st: Walk, full: seq<Byte>, name: seq<Byte>, p: nat, chars: seq<Byte>, n: nat)
    requires Compared(st, full, name, p) && p < |full| && |chars| == NAME_CHARS
    requires n == (if |full| - p < NAME_CHARS then |full| - p else NAME_CHARS) && chars[..n] == full[p..p + n]
    ensures Compared(WalkNext(st, FileName(chars), name), full, name, p + n)
    ensures var next := WalkNext(st, FileName(chars), name);
      next.(ptr := 0, differs := false) == st.(ptr := 0, differs := false)
  {
    hide Agree, Upper, SameName;
    if !st.differs && st.ptr < st.nameLen && st.ptr < |name| {
      var m := Min3(NAME_CHARS, st.nameLen - st.ptr, |name| - st.ptr);
      assert chars[..m] == chars[..n][..m] && full[p..p + m] == full[p..p + n][..m];
      CompareAgrees(full, name, p, chars, m);
    }
  }

  /** The name entries of one set: found if the names are equal, passed over if not. */
  lemma {:induction false} NamesWalk(es: seq<Entry>, i: nat, st: Walk, name: seq<Byte>, full: seq<Byte>, p: nat, pieces: seq<seq<Byte>>)
    returns (after: Walk)
    requires AllOk(es) && Names(es, i, pieces) && p <= |full| && PiecesOk(pieces, full[p..]) && Compared(st, full, name, p)
    ensures SameName(full, name) ==> WalkFrom(es, i, st, name) == Some(Found(st))
    ensures !SameName(full, name) ==> WalkFrom(es, i, st, name) == WalkFrom(es, i + |pieces|, after, name)
    decreases |pieces|
  {
    hide SameName, WalkNext;
    var n := if |full| - p < NAME_CHARS then |full| - p else NAME_CHARS;
    assert full[p..][..n] == full[p..p + n];
    assert es[i] == FileName(pieces[0]);
    CompareNext(st, full, name, p, pieces[0], n);
    var next := WalkNext(st, es[i], name);
    ComparedEnd(next, full, name, p + n);
    after := next;
    if p + n < |full| {
      assert full[p..][NAME_CHARS..] == full[p + n..];
      NamesTail(es, i, pieces);
      after := NamesWalk(es, i + 1, next, name, full, p + n, pieces[1..]);
    }
  }

  lemma NamesTail(es: seq<Entry>, i: nat, pieces: seq<seq<Byte>>)
    requires Names(es, i, pieces) && pieces != []
    ensures Names(es, i + 1, pieces[1..])
  {
  }

  /** The comparison succeeds at the end of the name and nowhere else. */
  lemma ComparedEnd(st: Walk, full: seq<Byte>, name: seq<Byte>, p: nat)
    requires Compared(st, full, name, p) && p > 0
    ensures !st.differs && st.ptr == st.nameLen == |name| <==> p == |full| && SameName(full, name)
  {
  }

  /** exfat_walk_dir finds the first file of that name, and nothing else. */
  lemma {:induction false} WalkIs(es: seq<Entry>, i: nat, st: Walk, name: seq<Byte>, items: seq<Item>)
    requires AllOk(es) && Describes(es, i, items)
    ensures WalkFrom(es, i, st, name) == Lookup(items, name)
    decreases |items|
  {
    hide SameName, PiecesOk, Names;
    if items != [] {
      var it := items[0];
      if it.Junk? {
        WalkIs(es, i + 1, st, name, items[1..]);
      } else {
        var st1 := WalkNext(st, es[i], name);
        var st2 := WalkNext(st1, es[i + 1], name);
        assert WalkFrom(es, i + 1, st1, name) == WalkFrom(es, i + 2, st2, name);
        assert it.name[0..] == it.name;
        var after := NamesWalk(es, i + 2, st2, name, it.name, 0, it.pieces);
        WalkIs(es, i + Size(it), after, name, items[1..]);
      }
    }
  }

  // ---------------------------------------------------------------- listing of well-formed directories

  ghost function DirentOf(it: Item): (d: Dirent)
    requires it.Set?
  {
    Dirent(it.name, it.node.isDir, it.node.clus, it.node.len)
  }

  /** The files of the directory, in order. */
  ghost function Files(items: seq<Item>): (r: seq<Item>)
    ensures forall k :: 0 <= k < |r| ==> r[k].Set?
  {
    if items == [] then []
    else if items[0].Junk? then Files(items[1..])
    else [items[0]] + Files(items[1..])
  }

  lemma ListName(st: List, full: seq<Byte>, p: nat, chars: seq<Byte>, n: nat)
    requires st.ptr == p < |full| == st.nameLen && st.out.name == full[..p] && |chars| == NAME_CHARS
    requires n == (if |full| - p < NAME_CHARS then |full| - p else NAME_CHARS) && chars[..n] == full[p..p + n]
    ensures ListNext(st, FileName(chars)) == st.(ptr := p + n, out := st.out.(name := full[..p + n]))
  {
    assert st.out.name[..p] == st.out.name;
    assert full[..p] + full[p..p + n] == full[..p + n];
  }

  lemma {:induction false} NamesList(es: seq<Entry>, i: nat, st: List, full: seq<Byte>, p: nat, pieces: seq<seq<Byte>>)
    requires AllOk(es) && Names(es, i, pieces) && p <= |full| && PiecesOk(pieces, full[p..])
    requires st.ptr == p && st.nameLen == |full| && st.out.name == full[..p]
    ensures ListFrom(es, i, st) == Some((st.out.(name := full), i + |pieces|))
    decreases |pieces|
  {
    hide ListNext;
    var n := if |full| - p < NAME_CHARS then |full| - p else NAME_CHARS;
    assert full[p..][..n] == full[p..p + n];
    assert es[i] == FileName(pieces[0]);
    ListName(st, full, p, pieces[0], n);
    if p + n < |full| {
      assert full[p..][NAME_CHARS..] == full[p + n..];
      NamesTail(es, i, pieces);
      NamesList(es, i + 1, ListNext(st, es[i]), full, p + n, pieces[1..]);
    } else {
      assert full[..p + n] == full;
    }
  }

  /** One call lists the next file and stops behind it, or reports the end. */
  lemma {:induction false} ListIs(es: seq<Entry>, i: nat, dst: Dirent, items: seq<Item>) returns (j: nat, rest: seq<Item>)
    requires AllOk(es) && Describes(es, i, items)
    ensures Files(items) == [] ==> ListFrom(es, i, ListStart(dst)) == None
    ensures Files(items) != [] ==>
      && ListFrom(es, i, ListStart(dst)) == Some((DirentOf(Files(items)[0]), j))
      && Describes(es, j, rest) && Files(rest) == Files(items)[1..]
    decreases |items|
  {
    hide PiecesOk, Names;
    j, rest := i, items;
    if items != [] {
      var it := items[0];
      if it.Junk? {
        j, rest := ListIs(es, i + 1, dst, items[1..]);
      } else {
        var st1 := ListNext(ListStart(dst), es[i]);
        var st2 := ListNext(st1, es[i + 1]);
        SetList(es, i, it, dst);
        j, rest := i + Size(it), items[1..];
      }
    }
  }

  lemma SetList(es: seq<Entry>, i: nat, it: Item, dst: Dirent)
    requires AllOk(es) && it.Set? && ItemAt(es, i, it)
    ensures ListFrom(es, i, ListStart(dst)) == Some((DirentOf(it), i + Size(it)))
  {
    hide PiecesOk, Names;
    var st1 := ListNext(ListStart(dst), es[i]);
    var st2 := ListNext(st1, es[i + 1]);
    assert ListFrom(es, i + 1, st1) == ListFrom(es, i + 2, st2);
    assert it.name[0..] == it.name;
    NamesFirst(es, i + 2, st2, it.name, it.pieces);
  }

  /** The first name entry of a set writes over whatever the caller's buffer held. */
  lemma NamesFirst(es: seq<Entry>, i: nat, st: List, full: seq<Byte>, pieces: seq<seq<Byte>>)
    requires AllOk(es) && Names(es, i, pieces) && PiecesOk(pieces, full) && st.ptr == 0 && st.nameLen == |full|
    ensures ListFrom(es, i, st) == Some((st.out.(name := full), i + |pieces|))
  {
    var blank := st.(out := st.out.(name := []));
    assert full[0..] == full;
    NamesList(es, i, blank, full, 0, pieces);
    assert es[i] == FileName(pieces[0]);
    assert ListNext(st, es[i]) == ListNext(blank, es[i]);
  }

  /** `n` calls, one after the other, each with its own buffer. */
  ghost function Listing(es: seq<Entry>, i: nat, dsts: seq<Dirent>): (r: seq<Option<Dirent>>)
    requires i <= |es| && AllOk(es)
    ensures |r| == |dsts|
    decreases |dsts|
  {
    if dsts == [] then []
    else
      match ListFrom(es, i, ListStart(dsts[0]))
      case None => [None] + Listing(es, i, dsts[1..])
      case Some(v) => [Some(v.0)] + Listing(es, v.1, dsts[1..])
  }

  /** Repeated calls list every file once, in order, and then report the end for ever. */
  lemma {:induction false} ListingIs(es: seq<Entry>, i: nat, dsts: seq<Dirent>, items: seq<Item>, k: nat)
    requires AllOk(es) && Describes(es, i, items) && k < |dsts|
    ensures Listing(es, i, dsts)[k] == if k < |Files(items)| then Some(DirentOf(Files(items)[k])) else None
    decreases |dsts|
  {
    hide Describes, ListFrom, AllOk;
    DescribesAt(es, i, items);
    var j, rest := ListIs(es, i, dsts[0], items);
    if k > 0 {
      if Files(items) == [] {
        ListingIs(es, i, dsts[1..], items, k - 1);
      } else {
        ListingIs(es, j, dsts[1..], rest, k - 1);
      }
    }
  }

  lemma DescribesAt(es: seq<Entry>, i: nat, items: seq<Item>)
    requires Describes(es, i, items)
    ensures i <= |es|
  {
  }

  /** The first of `files` with that name, or their number. */
  ghost function FirstNamed(files: seq<Item>, name: seq<Byte>): (k: nat)
    requires forall j :: 0 <= j < |files| ==> files[j].Set?
    ensures k <= |files| && (k < |files| ==> SameName(files[k].name, name))
    ensures forall j :: 0 <= j < k ==> !SameName(files[j].name, name)
  {
    if files == [] || SameName(files[0].name, name) then 0
    else
      var k := FirstNamed(files[1..], name);
      assert forall j :: 0 < j < |files| ==> files[j] == files[1..][j - 1];
      1 + k
  }

  /** Lookup and listing agree: a name is found exactly when a listed name equals it, and what is found is
      the first such file. */
  lemma {:induction false} LookupIsFirst(items: seq<Item>, name: seq<Byte>)
    ensures var files := Files(items); var k := FirstNamed(files, name);
      Lookup(items, name) == if k < |files| then Some(files[k].node) else None
  {
    hide SameName;
    if items != [] {
      LookupIsFirst(items[1..], name);
      if items[0].Set? {
        assert Files(items)[1..] == Files(items[1..]);
      }
    }
  }
}
