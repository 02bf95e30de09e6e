/** Paths as text: the parts between slashes, and the buffer a stored path is edited in. */
module PathText {
  import opened Words
  import opened PathNames

  /** The parts between the slashes, empty ones included; the last one is still growing. */
  ghost function Parts(s: seq<Byte>): (r: seq<Name>)
    ensures |r| > 0
  {
    if s == [] then [[]]
    else
      var n := |s| - 1;
      var before := Parts(s[..n]);
      var k := |before| - 1;
      if s[n] == SLASH then before + [[]] else before[..k] + [before[k] + [s[n]]]
  }

  lemma PartsNext(s: seq<Byte>, c: Byte)
    ensures var before := Parts(s); var k := |before| - 1;
      Parts(s + [c]) == if c == SLASH then before + [[]] else before[..k] + [before[k] + [c]]
  {
    assert (s + [c])[..|s|] == s;
  }

  lemma {:induction false} PartsAreParts(s: seq<Byte>)
    requires 0 !in s
    ensures AreParts(Parts(s))
  {
    if s != [] {
      PartsAreParts(s[..|s| - 1]);
    }
  }

  /** A slash ends one part for good. */
  lemma {:induction false} PartsJoin(s: seq<Byte>, t: seq<Byte>)
    ensures Parts(s + [SLASH] + t) == Parts(s) + Parts(t)
    decreases |t|
  {
    hide Parts;
    PartsNext(s, SLASH);
    PartsNone();
    if t == [] {
      assert s + [SLASH] + t == s + [SLASH];
    } else {
      var n := |t| - 1;
      var u := s + [SLASH] + t[..n];
      PartsJoin(s, t[..n]);
      assert s + [SLASH] + t == u + [t[n]] && t == t[..n] + [t[n]];
      PartsNext(u, t[n]);
      PartsNext(t[..n], t[n]);
      GrowLast(Parts(s), Parts(t[..n]), t[n]);
    }
  }

  lemma PartsNone()
    ensures Parts([]) == [[]]
  {
  }

  lemma GrowLast(a: seq<Name>, b: seq<Name>, c: Byte)
    requires b != []
    ensures var k := |b| - 1; var n := |a + b| - 1;
      && (a + b)[..n] + [(a + b)[n] + [c]] == a + (b[..k] + [b[k] + [c]])
      && (a + b) + [[]] == a + (b + [[]])
  {
    var k, n := |b| - 1, |a + b| - 1;
    assert (a + b)[..n] == a + b[..k];
  }

  /** A slash between two names separates them. */
  lemma SlashSeparates(a: Name, b: Name)
    requires 47 !in a && 47 !in b
    ensures Parts(a + [47] + b) == [a, b]
  {
    hide Parts;
    PartsJoin(a, b);
    PartsOfName(a);
    PartsOfName(b);
  }

  lemma {:induction false} PartsOfName(n: Name)
    requires SLASH !in n
    ensures Parts(n) == [n]
  {
    if n != [] {
      PartsOfName(n[..|n| - 1]);
      assert n[..|n| - 1] + [n[|n| - 1]] == n;
    }
  }

  /** A stored path falls apart into the names it was made of. */
  lemma {:induction false} PartsOfJoined(names: seq<Name>)
    requires AllClean(names)
    ensures Parts(Joined(names)) == [[]] + names
    decreases |names|
  {
    if names != [] {
      var n := |names| - 1;
      PartsOfJoined(names[..n]);
      PartsJoin(Joined(names[..n]), names[n]);
      PartsOfName(names[n]);
      assert [[]] + names == ([[]] + names[..n]) + [names[n]];
    }
  }

  lemma {:induction false} JoinedNoZero(names: seq<Name>)
    requires AllClean(names)
    ensures 0 !in Joined(names)
    ensures names != [] ==> Joined(names) != [] && Joined(names)[0] == SLASH
    decreases |names|
  {
    if names != [] {
      JoinedNoZero(names[..|names| - 1]);
    }
  }

  /** The text of a C string ends at `e`. */
  ghost predicate EndsAt(path: seq<Byte>, e: nat)
  {
    e < |path| && path[e] == 0 && 0 !in path[..e]
  }

  /** The path field of a descriptor: 256 bytes holding a C string. */
  class PathBuffer {
    const buf: array<Byte>

    ghost predicate Holds(s: seq<Byte>)
      reads this, buf
    {
      buf.Length == PATH_BUFLEN && |s| < PATH_BUFLEN && buf[..|s|] == s && buf[|s|] == 0 && 0 !in s
    }

    /** strcpy. */
    constructor (s: seq<Byte>)
      requires |s| < PATH_BUFLEN && 0 !in s
      ensures fresh(buf) && Holds(s)
    {
      var b := new Byte[PATH_BUFLEN];
      for i := 0 to |s|
        invariant b.Length == PATH_BUFLEN && b[..i] == s[..i]
      {
        b[i] := s[i];
      }
      b[|s|] := 0;
      assert b[..|s|] == s;
      buf := b;
    }

    /** strcat: the end of the text is looked for, and `s` written there. */
    method Cat(s: seq<Byte>, ghost text: seq<Byte>)
      requires Holds(text) && |text| + |s| < PATH_BUFLEN && 0 !in s
      modifies buf
      ensures Holds(text + s)
    {
      var e := 0;
      while buf[e] != 0
        invariant 0 <= e <= |text|
        decreases |text| - e
      {
        assert e < |text|;
        e := e + 1;
      }
      for i := 0 to |s|
        invariant buf[..e] == text && buf[e..e + i] == s[..i]
      {
        buf[e + i] := s[i];
      }
      buf[e + |s|] := 0;
      assert buf[..e + |s|] == buf[..e] + buf[e..e + |s|];
    }

    /** path_push. */
    method Push(name: Name, ghost text: seq<Byte>) returns (r: nat)
      requires Holds(text) && |text| + 1 + |name| < PATH_BUFLEN && 0 !in name
      modifies buf
      ensures Holds(text + [SLASH] + name) && r == 1 + |name|
    {
      r := 1 + |name|;
      Cat([SLASH], text);
      Cat(name, text + [SLASH]);
    }

    /** path_pop: the last name goes, and the root stays the root. */
    method Pop(len: nat, ghost names: seq<Name>) returns (r: nat)
      requires AllClean(names) && Holds(Joined(names)) && len == |Joined(names)|
      modifies buf
      ensures Holds(Joined(DropLast(names))) && r + |Joined(DropLast(names))| == len
    {
      hide Clean;
      if len == 0 {
        JoinedNoZero(names);
        return 0;
      }
      ghost var up := Joined(DropLast(names));
      ghost var text := Joined(names);
      LastSlash(names);
      var i: int := len - 1;
      while i >= 0
        invariant |up| <= i < len && buf[..] == old(buf[..])
      {
        assert buf[i] == buf[..len][i] == text[i];
        if buf[i] == SLASH {
          buf[i] := 0;
          assert buf[..i] == old(buf[..len])[..i] == text[..i];
          return len - i;
        }
        i := i - 1;
      }
    }
  }

  /** The last slash of a stored path stands right behind the path of the parent. */
  lemma LastSlash(names: seq<Name>)
    requires AllClean(names) && names != []
    ensures var up := Joined(DropLast(names)); var text := Joined(names);
      && |up| < |text| && text[|up|] == SLASH && text[..|up|] == up && 0 !in up
      && forall i :: |up| < i < |text| ==> text[i] != SLASH
  {
    var n := |names| - 1;
    JoinedNoZero(names[..n]);
    var up, text, last := Joined(names[..n]), Joined(names), names[n];
    assert Clean(last);
    assert text == up + [SLASH] + last;
    forall i | |up| < i < |text| ensures text[i] != SLASH {
      assert text[i] == last[i - |up| - 1];
    }
  }
}
