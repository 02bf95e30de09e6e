/** Ring buffers: a window of consecutive slots of an array whose end is joined to its start. */
module Rings {
  import opened Words

  /** Position `i` places after `h` in the ring. */
  function Slot(cap: nat, h: nat, i: nat): (r: nat)
    requires h < cap && i <= cap
    ensures r < cap
  {
    if h + i < cap then h + i else h + i - cap
  }

  /** `n` bytes of the ring `b`, from `i` places after `h` on. */
  function Window(b: seq<Byte>, h: nat, i: nat, n: nat): (r: seq<Byte>)
    requires h < |b| && i + n <= |b|
    ensures |r| == n
  {
    if n == 0 then [] else Window(b, h, i, n - 1) + [b[Slot(|b|, h, i + n - 1)]]
  }

  lemma {:induction false} WindowAt(b: seq<Byte>, h: nat, i: nat, n: nat, x: nat)
    requires h < |b| && i + n <= |b| && x < n
    ensures Window(b, h, i, n)[x] == b[Slot(|b|, h, i + x)]
  {
    if x < n - 1 {
      WindowAt(b, h, i, n - 1, x);
    }
  }

  /** A byte written outside the window leaves it alone. */
  lemma {:induction false} WindowKeeps(b: seq<Byte>, h: nat, i: nat, n: nat, j: nat, x: Byte)
    requires h < |b| && i + n <= |b| && j < |b| && (j < i || i + n <= j)
    ensures Window(b[Slot(|b|, h, j) := x], h, i, n) == Window(b, h, i, n)
  {
    if n > 0 {
      WindowKeeps(b, h, i, n - 1, j, x);
      assert Slot(|b|, h, i + n - 1) != Slot(|b|, h, j);
    }
  }

  lemma {:induction false} WindowJoin(b: seq<Byte>, h: nat, m: nat, n: nat)
    requires h < |b| && m + n <= |b|
    ensures Window(b, h, 0, m + n) == Window(b, h, 0, m) + Window(b, h, m, n)
  {
    if n > 0 {
      WindowJoin(b, h, m, n - 1);
    }
  }

  /** Dropping the first `n` bytes is moving the head. */
  lemma {:induction false} WindowDrop(b: seq<Byte>, h: nat, n: nat, len: nat)
    requires h < |b| && n <= len <= |b|
    ensures Window(b, Slot(|b|, h, n), 0, len - n) == Window(b, h, 0, len)[n..]
  {
    if n < len {
      WindowDrop(b, h, n, len - 1);
      assert Slot(|b|, Slot(|b|, h, n), len - n - 1) == Slot(|b|, h, len - 1);
    }
  }
}
