/** The keyboard queue of kernel/intr.c and the keyboard branch of sys_read. What a read delivers is
    kept as an output sequence. */
module Keyboard {
  import opened Results
  import opened Words
  import opened Rings
  import opened Processes
  import opened Kernels

  const KBD_BUFLEN: nat := 4096

  /** One finished read: the process and the bytes it got. */
  datatype Delivery = Delivery(o: nat, bytes: seq<Byte>)

  /** A process asleep in a read of `size` bytes. */
  datatype Request = Request(o: nat, size: nat)

  /** `queue` is what is buffered; `typed` are the keys accepted and `served` the reads finished so far. */
  datatype KbdState = KbdState(queue: seq<Byte>, waiting: Option<Request>, typed: seq<Byte>, served: seq<Delivery>)

  // ---------------------------------------------------------------- the steps

  /** A key interrupt: `c` goes behind the queue unless it is no key or the queue is full; a sleeper is
      served at once. */
  ghost function Press(s: KbdState, c: int): (t: KbdState)
  {
    if c <= 0 || |s.queue| >= KBD_BUFLEN then s
    else
      var q := s.queue + [c % 256];
      if s.waiting.None? then s.(queue := q, typed := s.typed + [c % 256])
      else
        var n := if |q| < s.waiting.value.size then |q| else s.waiting.value.size;
        KbdState(q[n..], None, s.typed + [c % 256], s.served + [Delivery(s.waiting.value.o, q[..n])])
  }

  ghost function Read(s: KbdState, o: nat, size: nat): (r: (KbdState, Outcome))
  {
    if |s.queue| > 0 then
      var n := if |s.queue| < size then |s.queue| else size;
      (s.(queue := s.queue[n..], served := s.served + [Delivery(o, s.queue[..n])]), Done(n))
    else if s.waiting.None? then (s.(waiting := Some(Request(o, size))), Blocked)
    else (s, Busy)
  }

  /** A process that dies stops waiting. */
  ghost function Gone(s: KbdState, o: nat): (t: KbdState)
  {
    if s.waiting.Some? && s.waiting.value.o == o then s.(waiting := None) else s
  }

  // ---------------------------------------------------------------- what every run keeps

  ghost function Delivered(ds: seq<Delivery>): (r: seq<Byte>)
  {
    if ds == [] then [] else Delivered(ds[..|ds| - 1]) + ds[|ds| - 1].bytes
  }

  /** Keys come out in the order typed, none lost, none made up; and only an empty queue has a sleeper. */
  ghost predicate KbdInv(s: KbdState)
  {
    && |s.queue| <= KBD_BUFLEN
    && s.typed == Delivered(s.served) + s.queue
    && (s.waiting.Some? ==> s.queue == [] && s.waiting.value.size > 0)
  }

  lemma DeliveredNext(ds: seq<Delivery>, d: Delivery)
    ensures Delivered(ds + [d]) == Delivered(ds) + d.bytes
  {
    assert (ds + [d])[..|ds|] == ds;
  }

  datatype Event = Key(c: int) | Call(o: nat, size: nat) | Death(o: nat)

  ghost function Next(s: KbdState, e: Event): (t: KbdState)
  {
    match e
    case Key(c) => Press(s, c)
    case Call(o, size) => Read(s, o, size).0
    case Death(o) => Gone(s, o)
  }

  /** A delivery from the front of the queue. */
  lemma DeliveryKeeps(typed: seq<Byte>, served: seq<Delivery>, queue: seq<Byte>, o: nat, n: nat)
    requires typed == Delivered(served) + queue && n <= |queue|
    ensures typed == Delivered(served + [Delivery(o, queue[..n])]) + queue[n..]
  {
    hide Delivered;
    DeliveredNext(served, Delivery(o, queue[..n]));
    assert queue == queue[..n] + queue[n..];
  }

  lemma PressKeeps(s: KbdState, c: int)
    requires KbdInv(s)
    ensures KbdInv(Press(s, c))
  {
    hide Delivered;
    if c > 0 && |s.queue| < KBD_BUFLEN {
      var q := s.queue + [c % 256];
      assert s.typed + [c % 256] == Delivered(s.served) + q;
      if s.waiting.Some? {
        var n := if |q| < s.waiting.value.size then |q| else s.waiting.value.size;
        DeliveryKeeps(s.typed + [c % 256], s.served, q, s.waiting.value.o, n);
      }
    }
  }

  lemma ReadKeeps(s: KbdState, o: nat, size: nat)
    requires KbdInv(s) && size > 0
    ensures KbdInv(Read(s, o, size).0)
  {
    hide Delivered;
    if |s.queue| > 0 {
      DeliveryKeeps(s.typed, s.served, s.queue, o, if |s.queue| < size then |s.queue| else size);
    }
  }

  lemma NextKeeps(s: KbdState, e: Event)
    requires KbdInv(s) && (e.Call? ==> e.size > 0)
    ensures KbdInv(Next(s, e))
  {
    hide Delivered, Press, Read;
    match e
    case Key(c) =>
      PressKeeps(s, c);
    case Call(o, size) =>
      ReadKeeps(s, o, size);
    case Death(o) =>
  }

  ghost function After(s: KbdState, es: seq<Event>): (t: KbdState)
  {
    if es == [] then s else Next(After(s, es[..|es| - 1]), es[|es| - 1])
  }

  const IDLE: KbdState := KbdState([], None, [], [])

  lemma {:induction false} RunKeeps(es: seq<Event>)
    requires forall e :: e in es && e.Call? ==> e.size > 0
    ensures KbdInv(After(IDLE, es))
    decreases |es|
  {
    if es != [] {
      RunKeeps(es[..|es| - 1]);
      NextKeeps(After(IDLE, es[..|es| - 1]), es[|es| - 1]);
    }
  }

  predicate IsKey(e: Event)
  {
    e.Key? && e.c > 0
  }

  /** The keys struck in the run, as the bytes they stand for. */
  ghost function Keys(es: seq<Event>): (r: seq<Byte>)
  {
    if es == [] then []
    else var e := es[|es| - 1]; Keys(es[..|es| - 1]) + (if IsKey(e) then [e.c % 256] else [])
  }

  /** No key was struck while 4096 were queued. */
  ghost predicate NeverFull(es: seq<Event>)
  {
    forall i :: 0 <= i < |es| && IsKey(es[i]) ==> |After(IDLE, es[..i]).queue| < KBD_BUFLEN
  }

  lemma NeverFullNext(es: seq<Event>)
    requires es != []
    ensures var n := |es| - 1;
      NeverFull(es) <==> NeverFull(es[..n]) && (IsKey(es[n]) ==> |After(IDLE, es[..n]).queue| < KBD_BUFLEN)
  {
    hide After;
    var n := |es| - 1;
    forall i | 0 <= i < n ensures es[..n][..i] == es[..i] && es[..n][i] == es[i] {
    }
  }

  /** What one event adds to the keys accepted: a key that finds fewer than 4096 queued, and nothing else. */
  lemma TypedNext(es: seq<Event>)
    requires es != []
    ensures var n := |es| - 1; var s := After(IDLE, es[..n]);
      After(IDLE, es).typed == s.typed + (if IsKey(es[n]) && |s.queue| < KBD_BUFLEN then [es[n].c % 256] else [])
  {
    hide Next;
    StepTyped(After(IDLE, es[..|es| - 1]), es[|es| - 1]);
  }

  lemma StepTyped(s: KbdState, e: Event)
    ensures Next(s, e).typed == s.typed + (if IsKey(e) && |s.queue| < KBD_BUFLEN then [e.c % 256] else [])
  {
  }

  /** A key is left out exactly if 4096 are queued when it is struck. */
  lemma {:induction false} NoneLeftOut(es: seq<Event>)
    ensures After(IDLE, es).typed == Keys(es) <==> NeverFull(es)
    ensures |After(IDLE, es).typed| <= |Keys(es)|
    ensures |After(IDLE, es).typed| == |Keys(es)| ==> After(IDLE, es).typed == Keys(es)
    decreases |es|
  {
    hide NeverFull, Next;
    if es == [] {
      assert NeverFull(es) by {
        NeverFullNone();
      }
    } else {
      NoneLeftOut(es[..|es| - 1]);
      NeverFullNext(es);
      TypedNext(es);
    }
  }

  lemma NeverFullNone()
    ensures NeverFull([])
  {
  }

  /** Up to 4096 keys none is left out, however few of them are read: what has been delivered and what is queued are
      the keys struck. */
  lemma {:induction false} AllTyped(es: seq<Event>)
    requires |Keys(es)| <= KBD_BUFLEN && forall e :: e in es && e.Call? ==> e.size > 0
    ensures After(IDLE, es).typed == Keys(es) == Delivered(After(IDLE, es).served) + After(IDLE, es).queue
    decreases |es|
  {
    hide Next;
    RunKeeps(es);
    if es != [] {
      var n := |es| - 1;
      AllTyped(es[..n]);
      RunKeeps(es[..n]);
      TypedNext(es);
    }
  }

  /** A read of queued keys takes the first of them, as many as there are or as it asked for, for its caller; with
      none queued it sleeps, or is refused because another does. */
  lemma ReadAnswers(s: KbdState, o: nat, size: nat)
    ensures var (t, out) := Read(s, o, size);
      && (out.Done? <==> s.queue != []) && (out == Busy <==> s.queue == [] && s.waiting.Some?)
      && (out.Done? ==> t.served == s.served + [Delivery(o, s.queue[..|s.queue| - |t.queue|])] && out.n == |s.queue| - |t.queue|)
      && (out.Done? ==> out.n <= size && (out.n == size || t.queue == []))
      && (out == Blocked ==> t == s.(waiting := Some(Request(o, size)))) && (out == Busy ==> t == s)
  {
  }

  /** A read that went to sleep gets exactly the next key: one byte, whatever its size, and nothing is
      left behind. */
  lemma SleeperGetsNextKey(s: KbdState, c: int)
    requires KbdInv(s) && s.waiting.Some? && c > 0
    ensures Press(s, c) == KbdState([], None, s.typed + [c % 256], s.served + [Delivery(s.waiting.value.o, [c % 256])])
  {
    assert s.queue == [];
    var q := s.queue + [c % 256];
    assert q[..1] == [c % 256] && q[1..] == [];
  }

  /** From its call until it is served, through any run in which it does not die, the sleeper stays the
      sleeper; and every other reader is refused. */
  lemma {:induction false} SleeperStays(s: KbdState, es: seq<Event>)
    requires KbdInv(s) && s.waiting.Some?
    requires forall e :: e in es ==> !(e.Key? && e.c > 0) && e != Death(s.waiting.value.o)
    ensures After(s, es) == s
    ensures forall o, size :: Read(s, o, size) == (s, Busy)
    decreases |es|
  {
    if es != [] {
      SleeperStays(s, es[..|es| - 1]);
      assert es[|es| - 1] in es;
    }
  }

  // ---------------------------------------------------------------- the driver

  class Driver {
    const k: Kernel
    const buffer: array<Byte>
    var beg: nat
    var siz: nat
    var waiting: Option<Request>
    ghost var typed: seq<Byte>
    var served: seq<Delivery>

    ghost predicate Valid()
      reads this, buffer, k, k.m
    {
      && buffer.Length == KBD_BUFLEN && beg < KBD_BUFLEN && siz <= KBD_BUFLEN && k.Inv()
      && (waiting.Some? ==> Live(k.procs, waiting.value.o))
    }

    ghost function Queue(): (q: seq<Byte>)
      requires buffer.Length == KBD_BUFLEN && beg < KBD_BUFLEN && siz <= KBD_BUFLEN
      reads this, buffer
      ensures |q| == siz
    {
      Window(buffer[..], beg, 0, siz)
    }

    ghost function Abs(): (s: KbdState)
      requires buffer.Length == KBD_BUFLEN && beg < KBD_BUFLEN && siz <= KBD_BUFLEN
      reads this, buffer
    {
      KbdState(Queue(), waiting, typed, served)
    }

    constructor (k: Kernel)
      requires k.Inv()
      ensures this.k == k && fresh(buffer) && Valid() && Abs() == IDLE
    {
      this.k := k;
      buffer := new Byte[KBD_BUFLEN];
      beg, siz, waiting, typed, served := 0, 0, None, [], [];
    }

    /** The copy loop shared by the interrupt and the system call: `n` bytes leave the queue. */
    method Drain(n: nat) returns (bytes: seq<Byte>)
      requires Valid() && n <= siz
      modifies `beg, `siz
      ensures Valid() && bytes == old(Queue())[..n] && Queue() == old(Queue())[n..]
    {
      hide Kernel.Inv, Window;
      bytes := [];
      for i := 0 to n
        invariant Valid() && siz == old(siz) - i
        invariant bytes == old(Queue())[..i] && Queue() == old(Queue())[i..]
      {
        WindowAt(buffer[..], beg, 0, siz, 0);
        WindowDrop(buffer[..], beg, 1, siz);
        bytes := bytes + [buffer[beg]];
        beg := beg + 1;
        if beg == KBD_BUFLEN {
          beg := 0;
        }
        siz := siz - 1;
      }
    }

    /** A key is put behind the queue. */
    method Enqueue(b: Byte)
      requires Valid() && siz < KBD_BUFLEN
      modifies `siz, buffer
      ensures Valid() && Queue() == old(Queue()) + [b]
    {
      hide Kernel.Inv;
      ghost var before := buffer[..];
      buffer[(beg + siz) % KBD_BUFLEN] := b;
      assert buffer[..] == before[Slot(KBD_BUFLEN, beg, siz) := b];
      WindowKeeps(before, beg, 0, siz, siz, b);
      siz := siz + 1;
    }

    /** The sleeper is given what there is, and is ready. */
    method Serve()
      requires Valid() && waiting.Some?
      modifies `beg, `siz, `served, `waiting, k
      ensures Valid() && waiting.None? && k.World() == old(k.World())
      ensures var n := if old(siz) < old(waiting).value.size then old(siz) else old(waiting).value.size;
        Queue() == old(Queue())[n..] && served == old(served) + [Delivery(old(waiting).value.o, old(Queue())[..n])]
      ensures old(waiting).value.o < |old(k.procs)|
      ensures k.procs == old(k.procs)[old(waiting).value.o := old(k.procs)[old(waiting).value.o].(state := Ready)]
    {
      hide Kernel.Inv, Kernel.World, Window;
      var n := if siz < waiting.value.size then siz else waiting.value.size;
      var bytes := Drain(n);
      served := served + [Delivery(waiting.value.o, bytes)];
      k.SetState(waiting.value.o, Ready);
      waiting := None;
    }

    /** The keyboard interrupt, while `cur` runs. */
    method Interrupt(c: int, cur: nat)
      requires Valid() && Live(k.procs, cur)
      modifies this, buffer, k
      ensures Valid() && Abs() == Press(old(Abs()), c) && k.World() == old(k.World())
      ensures old(waiting).Some? && waiting.None? ==> IsReady(k.procs, old(waiting).value.o) && IsReady(k.procs, cur)
      ensures waiting == old(waiting) ==> k.procs == old(k.procs)
      ensures forall q :: 0 <= q < |k.procs| == |old(k.procs)| && q != cur && !(old(waiting).Some? && q == old(waiting).value.o) ==>
                k.procs[q] == old(k.procs)[q]
    {
      hide Kernel.Inv, Kernel.World, Window;
      WorldKeys(k);
      if c > 0 && siz < KBD_BUFLEN {
        Enqueue(c % 256);
        typed := typed + [c % 256];
        if waiting.Some? {
          Serve();
          k.SetState(cur, Ready);
        }
      }
    }

    /** clear_proc, as far as the keyboard goes. */
    method Forget(o: nat)
      requires Valid()
      modifies `waiting
      ensures Valid() && Abs() == Gone(old(Abs()), o) && (waiting.Some? ==> waiting.value.o != o)
    {
      if waiting.Some? && waiting.value.o == o {
        waiting := None;
      }
    }

    /** The keyboard branch of sys_read. */
    method ReadKeys(o: nat, size: nat) returns (out: Outcome)
      requires Valid() && Live(k.procs, o) && size > 0
      modifies this, k
      ensures Valid() && (Abs(), out) == Read(old(Abs()), o, size) && k.World() == old(k.World())
      ensures o < |old(k.procs)| && k.procs == if out == Blocked then old(k.procs)[o := old(k.procs)[o].(state := Pending)] else old(k.procs)
    {
      hide Kernel.Inv, Kernel.World;
      if siz > 0 {
        var n := if siz < size then siz else size;
        var bytes := Drain(n);
        served := served + [Delivery(o, bytes)];
        return Done(n);
      }
      if waiting.Some? {
        return Busy;
      }
      waiting := Some(Request(o, size));
      k.SetState(o, Pending);
      return Blocked;
    }
  }
}
