/** kernel/fs/pipe.c: the ring buffer and the two calls that copy between it and user memory. */
module Pipes {
  import opened Results
  import opened Words
  import opened Rings
  import opened Paths
  import opened PageState
  import opened DeepCopy
  import opened Views
  import opened Processes
  import opened Kernels
  import opened KernelHalves
  import opened Losses
  import opened PipeSpec

  /** The addresses va .. va+n, the one past the end included, belong to pages of `o`; with `write` it
      may write them. */
  ghost predicate Buffer(w: World, o: nat, va: nat, n: nat, write: bool)
  {
    va + n < UMAX_ADDRESS && forall x :: va <= x <= va + n ==> Mapped(w, o, x) && (write ==> CanStore(w, o, x))
  }

  lemma SameWalk(x: nat)
    requires (x + 1) % PAGE_SIZE != 0
    ensures PathOf(x + 1) == PathOf(x) && (x + 1) % PAGE_SIZE == x % PAGE_SIZE + 1
  {
    assert (x + 1) / PAGE_SIZE == x / PAGE_SIZE;
    SamePage(x + 1, x);
  }

  /** Moving on by one byte in a copy of less than a page. */
  lemma PageStep(x: nat, end: nat)
    requires x < end < x + PAGE_SIZE
    ensures if (x + 1) % PAGE_SIZE != 0
      then (x + 1) / PAGE_SIZE == x / PAGE_SIZE && (x + 1) % PAGE_SIZE == x % PAGE_SIZE + 1
      else x / PAGE_SIZE != end / PAGE_SIZE && (x + 1) / PAGE_SIZE == end / PAGE_SIZE
  {
  }

  lemma OutStart(w: World, o: nat, va: nat, data: seq<Byte>)
    ensures StoreAll(w, o, va, data[..0]) == w
  {
  }

  lemma OutMapped(w: World, o: nat, va: nat, data: seq<Byte>, n: nat, x: nat)
    requires Buffer(w, o, va, n, true) && va <= x <= va + n
    ensures Mapped(StoreAll(w, o, va, data), o, x) && CanStore(StoreAll(w, o, va, data), o, x) && x < UMAX_ADDRESS
  {
    hide StoreAll, PathOf, Mapped, CanStore;
    StoreAllOthers(w, o, va, data, o);
  }

  lemma OutStep(w: World, o: nat, va: nat, data: seq<Byte>, i: nat, n: nat)
    requires Buffer(w, o, va, n, true) && i < n <= |data|
    ensures Mapped(StoreAll(w, o, va, data[..i]), o, va + i) && va + i < UMAX_ADDRESS
    ensures StoreAll(w, o, va, data[..i + 1]) == Store(StoreAll(w, o, va, data[..i]), o, va + i, data[i])
  {
    hide PathOf, Mapped, CanStore, Store;
    OutMapped(w, o, va, data[..i], n, va + i);
    assert data[..i + 1][..i] == data[..i];
  }

  /** The pages of the bytes va .. va+n. */
  ghost function Touched(va: nat, n: nat): (vs: set<Path>)
  {
    if n == 0 then {PathOf(va)} else Touched(va, n - 1) + {PathOf(va + n)}
  }

  /** The first byte of a page is on another page than the bytes before it. */
  lemma {:induction false} Untouched(va: nat, n: nat, x: nat)
    requires va + n < x < UMAX_ADDRESS && x % PAGE_SIZE == 0
    ensures PathOf(x) !in Touched(va, n)
  {
    hide PathOf;
    if PathOf(x) == PathOf(va + n) {
      PathOfInjective(x, va + n);
    }
    if n > 0 {
      Untouched(va, n - 1, x);
    }
  }

  lemma TouchedNext(va: nat, n: nat)
    requires va + n + 1 < UMAX_ADDRESS
    ensures Touched(va, n + 1) == Touched(va, n) + {PathOf(va + n + 1)}
    ensures if (va + n + 1) % PAGE_SIZE == 0 then PathOf(va + n + 1) !in Touched(va, n) else Touched(va, n + 1) == Touched(va, n)
  {
    hide PathOf;
    if (va + n + 1) % PAGE_SIZE == 0 {
      Untouched(va, n, va + n + 1);
    } else {
      SameWalk(va + n);
      assert PathOf(va + n) in Touched(va, n);
    }
  }

  lemma TouchedFirst(va: nat)
    ensures {} + {PathOf(va)} == Touched(va, 0)
  {
  }

  /** The frames that a delivery of `n` bytes to a reader loses. */
  ghost function WastedTo(s: State, r: Option<Reader>, n: nat): (lost: set<nat>)
  {
    if r.None? || n == 0 then {} else WastedIn(s, r.value.o, Touched(r.value.va, n))
  }

  ghost predicate SameLive(procs: seq<Proc>, was: seq<Proc>)
  {
    forall o :: Live(procs, o) <==> Live(was, o)
  }

  /** `q` is woken by one of the wake-ups from the `n`-th on. */
  ghost predicate WokenFrom(ws: seq<(nat, nat)>, n: nat, q: nat)
  {
    exists i :: n <= i < |ws| && ws[i].0 == q
  }

  /** Exactly the processes woken since `before` have become ready, and nothing else has changed in the process
      table, but for the slots `but`. */
  ghost predicate Rouses(was: seq<Proc>, before: seq<(nat, nat)>, procs: seq<Proc>, now: seq<(nat, nat)>, but: set<nat>)
  {
    && before <= now && |procs| == |was|
    && (forall i :: |before| <= i < |now| ==> now[i].0 < |procs|)
    && forall q :: 0 <= q < |was| && q !in but ==>
         procs[q] == if WokenFrom(now, |before|, q) then was[q].(state := ProcState.Ready) else was[q]
  }

  lemma RousesNone(procs: seq<Proc>, ws: seq<(nat, nat)>)
    ensures Rouses(procs, ws, procs, ws, {})
  {
  }

  lemma RousesOne(procs: seq<Proc>, ws: seq<(nat, nat)>, o: nat, rax: nat)
    requires o < |procs|
    ensures Rouses(procs, ws, procs[o := procs[o].(state := ProcState.Ready)], ws + [(o, rax)], {})
  {
    var now := ws + [(o, rax)];
    assert now[|ws|].0 == o;
  }

  lemma RousesTrans(p: seq<Proc>, ws: seq<(nat, nat)>, p': seq<Proc>, ws': seq<(nat, nat)>, p'': seq<Proc>, ws'': seq<(nat, nat)>)
    requires Rouses(p, ws, p', ws', {}) && Rouses(p', ws', p'', ws'', {})
    ensures Rouses(p, ws, p'', ws'', {})
  {
    forall q | 0 <= q < |p| ensures WokenFrom(ws'', |ws|, q) <==> WokenFrom(ws', |ws|, q) || WokenFrom(ws'', |ws'|, q) {
      if WokenFrom(ws', |ws|, q) {
        var i :| |ws| <= i < |ws'| && ws'[i].0 == q;
        assert ws''[i] == ws'[i];
      }
      if WokenFrom(ws'', |ws|, q) {
        var i :| |ws| <= i < |ws''| && ws''[i].0 == q;
        assert i < |ws'| ==> ws'[i] == ws''[i];
      }
    }
    forall i | |ws| <= i < |ws''| ensures ws''[i].0 < |p''| {
      assert i < |ws'| ==> ws''[i] == ws'[i];
    }
  }

  /** After the wake-ups the caller goes to sleep, even if it is one of those woken. */
  lemma RousesBut(p: seq<Proc>, ws: seq<(nat, nat)>, p': seq<Proc>, ws': seq<(nat, nat)>, o: nat)
    requires Rouses(p, ws, p', ws', {}) && o < |p'|
    ensures o < |p| == |p'| && Rouses(p, ws, p'[o := p'[o].(state := Pending)], ws', {o})
    ensures p'[o].(state := Pending) == p[o].(state := Pending)
  {
  }

  /** Whoever was woken is ready. */
  lemma RousedReady(p: seq<Proc>, ws: seq<(nat, nat)>, p': seq<Proc>, ws': seq<(nat, nat)>, but: set<nat>)
    requires Rouses(p, ws, p', ws', but)
    ensures forall i :: |ws| <= i < |ws'| && ws'[i].0 !in but ==> IsReady(p', ws'[i].0) && p'[ws'[i].0].state == ProcState.Ready
  {
    forall i | |ws| <= i < |ws'| && ws'[i].0 !in but ensures IsReady(p', ws'[i].0) {
      assert WokenFrom(ws', |ws|, ws'[i].0);
    }
  }

  class Pipe {
    const k: Kernel
    const buf: array<Byte>
    var head: nat
    var len: nat
    var rsiz: nat
    var wptr: nat
    var wsiz: nat
    var reader: Option<nat>
    var writer: Option<nat>
    var wref: nat
    var rbuf: nat
    var wbuf: nat
    ghost var accepted: seq<Byte>
    ghost var delivered: seq<Byte>
    ghost var finished: seq<seq<Byte>>
    ghost var payload: seq<Byte>
    ghost var woken: seq<(nat, nat)>

    constructor (k: Kernel)
      requires k.Inv()
      ensures this.k == k && fresh(buf) && Valid() && Ready() && Abs() == Empty(k.World()) && PipeInv(Abs())
    {
      this.k := k;
      buf := new Byte[BUFLEN];
      head, len, rsiz, wptr, wsiz := 0, 0, 0, 0, 0;
      reader, writer := None, None;
      wref := 1;
      rbuf, wbuf := 0, 0;
      accepted, delivered, finished, payload, woken := [], [], [], [], [];
    }

    ghost function Ring(): (r: seq<Byte>)
      requires buf.Length == BUFLEN && head < BUFLEN && len <= CAPACITY
      reads this, buf
      ensures |r| == len
    {
      Window(buf[..], head, 0, len)
    }

    ghost predicate Shape()
      reads this, buf
    {
      && buf.Length == BUFLEN && head < BUFLEN && len <= CAPACITY
      && (writer.Some? ==> wptr < wsiz) && (writer.None? ==> wptr == wsiz == wbuf == 0)
      && (reader.Some? ==> rsiz > 0) && (reader.None? ==> rsiz == rbuf == 0)
    }

    ghost predicate Valid()
      reads this, buf, k, k.m
    {
      Shape() && k.Inv()
    }

    ghost function Abs(): (s: PipeState)
      requires Shape()
      reads this, buf, k, k.m
    {
      PipeState(Ring(),
                if reader.Some? then Some(Reader(reader.value, rbuf, rsiz)) else None,
                if writer.Some? then Some(Writer(writer.value, wbuf, wsiz, wptr)) else None,
                wref, k.World(), accepted, delivered, finished, payload, woken)
    }

    /** One byte of the copy loop of pipe_read. */
    method OutByte(o: nat, frame: nat, off: nat, j: nat, ghost w: World, ghost i: nat, ghost n: nat, ghost s: State, ghost vs: set<Path>)
      requires Valid() && i < n <= len && j == Slot(BUFLEN, head, i) && Live(k.procs, o) && Buffer(w, o, rbuf, n, true)
      requires k.World() == StoreAll(w, o, rbuf, Ring()[..i])
      requires off == (rbuf + i) % PAGE_SIZE && Writable(k.m.St(), o, rbuf + i, frame) && Visited(s, k.m.St(), o, vs)
      modifies k.m
      ensures Visited(s, k.m.St(), o, vs) && (old(k.KernelMapped()) ==> k.KernelMapped())
      ensures Valid() && k.World() == StoreAll(w, o, rbuf, Ring()[..i + 1]) && k.m.nfree == old(k.m.nfree)
      ensures (rbuf + i + 1) % PAGE_SIZE != 0 ==> Writable(k.m.St(), o, rbuf + i + 1, frame)
    {
      hide Visited, KernelIn, KeepsHalves, Good, StoreAll, PathOf, Mapped, CanStore, Store, WorldOf;
      WindowAt(buf[..], head, 0, len, i);
      OutStep(w, o, rbuf, Ring(), i, n);
      if (rbuf + i + 1) % PAGE_SIZE != 0 {
        SameWalk(rbuf + i);
      }
      ghost var before := k.m.St();
      k.RawStore(frame, off, buf[j], o, rbuf + i);
      VisitStored(s, before, k.m.St(), o, vs);
      if KernelIn(before, k.kspace, {}) && Private(k.kspace) {
        KeptMapped(k, before);
      }
    }

    /** The reader's frame is looked up at byte `i` of its buffer. */
    method OutPage(o: nat, ghost w: World, i: nat, ghost n: nat, ghost s: State, ghost vs: set<Path>) returns (frame: nat)
      requires Valid() && i <= n <= len && Live(k.procs, o) && Buffer(w, o, rbuf, n, true)
      requires k.World() == StoreAll(w, o, rbuf, Ring()[..i]) && k.m.nfree >= 2
      requires Visited(s, k.m.St(), o, vs) && PathOf(rbuf + i) !in vs
      modifies k.m
      ensures Visited(s, k.m.St(), o, vs + {PathOf(rbuf + i)}) && (old(k.KernelMapped()) ==> k.KernelMapped())
      ensures Valid() && k.World() == old(k.World()) && k.m.nfree >= old(k.m.nfree) - 1
      ensures Writable(k.m.St(), o, rbuf + i, frame)
    {
      hide Visited, Ledger, OthersKept, WastedBy, KernelIn, KeepsHalves, StoreAll, PathOf, Mapped, CanStore, Store, WorldOf, Base, Twin;
      OutMapped(w, o, rbuf, Ring()[..i], n, rbuf + i);
      SplitCount(k.m.St(), o, PathOf(rbuf + i));
      ghost var before := k.m.St();
      frame := k.U2K(o, rbuf + i, true);
      VisitNext(s, before, k.m.St(), o, vs, PathOf(rbuf + i));
      if KernelIn(before, k.kspace, {}) && Private(k.kspace) {
        KeptMapped(k, before);
      }
    }

    /** The copy loop of pipe_read: `n` bytes of the ring go to consecutive addresses of the reader,
        whose frame is looked up again at every page boundary. */
    method CopyOut(o: nat, n: nat)
      requires Valid() && 0 < n <= len && Live(k.procs, o) && Buffer(k.World(), o, rbuf, n, true) && k.m.nfree >= 3
      modifies k.m
      ensures Valid() && k.World() == StoreAll(old(k.World()), o, rbuf, Ring()[..n])
      ensures Visited(old(k.m.St()), k.m.St(), o, Touched(rbuf, n)) && (old(k.KernelMapped()) ==> k.KernelMapped())
    {
      hide Visited, Touched, KernelIn, PathOf, Good, StoreAll, WorldOf, Buffer, Writable, Ring;
      ghost var w := k.World();
      OutStart(w, o, rbuf, Ring());
      ghost var s := k.m.St();
      VisitNone(s, o);
      TouchedFirst(rbuf);
      BufferEnd(w, o, rbuf, n, true);
      var frame := OutPage(o, w, 0, n, s, {});
      var koff := rbuf % PAGE_SIZE;
      var i, ind, j := 0, 0, head;
      var tail := (head + n) % BUFLEN;
      while j != tail
        invariant 0 <= i <= n && j == Slot(BUFLEN, head, i) && Valid()
        invariant k.World() == StoreAll(w, o, rbuf, Ring()[..i])
        invariant Visited(s, k.m.St(), o, Touched(rbuf, i)) && (old(k.KernelMapped()) ==> k.KernelMapped())
        invariant i < n ==> koff + ind == (rbuf + i) % PAGE_SIZE && Writable(k.m.St(), o, rbuf + i, frame)
        invariant (rbuf + i) / PAGE_SIZE == (rbuf + n) / PAGE_SIZE || k.m.nfree >= 2
        decreases n - i
      {
        TouchedNext(rbuf, i);
        OutByte(o, frame, koff + ind, j, w, i, n, s, Touched(rbuf, i));
        PageStep(rbuf + i, rbuf + n);
        j := j + 1;
        if j == BUFLEN {
          j := 0;
        }
        i := i + 1;
        if (rbuf + i) % PAGE_SIZE != 0 {
          ind := ind + 1;
        } else {
          frame := OutPage(o, w, i, n, s, Touched(rbuf, i - 1));
          koff := 0;
          ind := 0;
        }
      }
    }

    /** One byte of the copy loop of pipe_write. */
    method InByte(o: nat, start: nat, frame: nat, off: nat, j: nat, i: nat, ghost n: nat)
      requires Valid() && i < n && len + n <= CAPACITY && j == Slot(BUFLEN, head, len + i) && Live(k.procs, o)
      requires Buffer(k.World(), o, start, n, false) && off == (start + i) % PAGE_SIZE && Readable(k.m.St(), o, start + i, frame)
      requires Window(buf[..], head, len, i) == Bytes(k.World(), o, start, i)
      modifies buf
      ensures Valid() && Ring() == old(Ring())
      ensures Window(buf[..], head, len, i + 1) == Bytes(k.World(), o, start, i + 1)
    {
      hide Good, WorldOf, PathOf, Mapped, Peek;
      BufferAt(k.World(), o, start, n, start + i);
      var b := k.RawLoad(frame, off, o, start + i);
      ghost var before := buf[..];
      buf[j] := b;
      assert buf[..] == before[j := b];
      WindowKeeps(before, head, 0, len, len + i, b);
      WindowKeeps(before, head, len, i, len + i, b);
    }

    /** The writer's frame is looked up at `va`; nothing changes. */
    method InPage(o: nat, va: nat) returns (frame: nat)
      requires Valid() && Live(k.procs, o) && Mapped(k.World(), o, va) && va < UMAX_ADDRESS
      modifies k.m
      ensures k.m.St() == old(k.m.St()) && Readable(k.m.St(), o, va, frame)
    {
      frame := k.U2K(o, va, false);
    }

    /** The copy loop of pipe_write: `n` bytes from consecutive addresses of the writer go behind the
        last byte of the ring. */
    method CopyIn(o: nat, n: nat)
      requires Valid() && 0 < n && len + n <= CAPACITY && Live(k.procs, o) && Buffer(k.World(), o, wbuf + wptr, n, false)
      modifies k.m, buf
      ensures Valid() && k.m.St() == old(k.m.St()) && Ring() == old(Ring())
      ensures Window(buf[..], head, len, n) == Bytes(k.World(), o, wbuf + wptr, n)
    {
      hide Good, WorldOf, PathOf, Mapped, Bytes, Window, Buffer, Readable;
      var start := wbuf + wptr;
      BufferAt(k.World(), o, start, n, start);
      InStart(buf[..], head, len, k.World(), o, start);
      var frame := InPage(o, start);
      var koff := start % PAGE_SIZE;
      var i, ind, j := 0, 0, (head + len) % BUFLEN;
      var tail := (head + len + n) % BUFLEN;
      while j != tail
        invariant 0 <= i <= n && j == Slot(BUFLEN, head, len + i) && Shape() && k.m.St() == old(k.m.St())
        invariant i < n ==> koff + ind == (start + i) % PAGE_SIZE && Readable(k.m.St(), o, start + i, frame)
        invariant Ring() == old(Ring()) && Window(buf[..], head, len, i) == Bytes(k.World(), o, start, i)
        decreases n - i
      {
        BufferAt(k.World(), o, start, n, start + i + 1);
        PageStep(start + i, start + n);
        InByte(o, start, frame, koff + ind, j, i, n);
        j := j + 1;
        if j == BUFLEN {
          j := 0;
        }
        i := i + 1;
        if (start + i) % PAGE_SIZE != 0 {
          ReadableNext(k.m.St(), o, start + i - 1, frame);
          ind := ind + 1;
        } else {
          frame := InPage(o, start + i);
          koff := 0;
          ind := 0;
        }
      }
    }

    /** The processes recorded are alive, are two, and have the buffers they claim; a reader finds the
        pages its copy may need. */
    ghost predicate Ready()
      reads this, buf, k, k.m
    {
      && (reader.Some? ==> Live(k.procs, reader.value) && Buffer(k.World(), reader.value, rbuf, rsiz, true) && k.m.nfree >= 3)
      && (writer.Some? ==> Live(k.procs, writer.value) && Buffer(k.World(), writer.value, wbuf, wsiz, false))
    }

    /** `n` bytes leave the ring. */
    method Advance(n: nat)
      requires Shape() && n <= len
      modifies `head, `len, `delivered
      ensures Shape() && Ring() == old(Ring())[n..] && delivered == old(delivered) + old(Ring())[..n]
    {
      delivered := delivered + Ring()[..n];
      WindowDrop(buf[..], head, n, len);
      len := len - n;
      head := head + n;
      if head >= BUFLEN {
        head := head - BUFLEN;
      }
    }

    /** A process sleeping on the pipe becomes ready and finds `rax` as the result of its call. */
    method Wake(o: nat, rax: nat)
      requires k.Inv() && Live(k.procs, o)
      modifies `woken, k
      ensures k.Inv() && k.World() == old(k.World()) && woken == old(woken) + [(o, rax)]
      ensures SameLive(k.procs, old(k.procs)) && IsReady(k.procs, o) && Rouses(old(k.procs), old(woken), k.procs, woken, {})
    {
      RousesOne(k.procs, woken, o, rax);
      k.SetState(o, ProcState.Ready);
      woken := woken + [(o, rax)];
    }

    /** The copy of pipe_read, up to the wake-up: the bytes are in the reader's memory and no longer in
        the ring. */
    method MoveOut(n: nat)
      requires Valid() && Ready() && reader.Some? && n == Min(len, rsiz) && n > 0
      modifies `head, `len, `delivered, k.m
      ensures Valid() && (writer.Some? ==> Buffer(k.World(), writer.value, wbuf, wsiz, false))
      ensures Ring() == old(Ring())[n..] && delivered == old(delivered) + old(Ring())[..n]
      ensures k.World() == StoreAll(old(k.World()), reader.value, rbuf, old(Ring())[..n])
      ensures Ledger(old(k.m.St()), k.m.St(), WastedTo(old(k.m.St()), Some(Reader(reader.value, rbuf, rsiz)), n), {})
      ensures old(k.KernelMapped()) ==> k.KernelMapped()
    {
      hide KernelIn, Touched, WastedIn, Ledger, OthersKept, Good, WorldOf, StoreAll, Buffer, Window, Live;
      ghost var world := k.World();
      BufferShrinks(k.World(), reader.value, rbuf, rsiz, n, true);
      CopyOut(reader.value, n);
      if writer.Some? {
        BufferElsewhere(world, reader.value, rbuf, Ring()[..n], writer.value, wbuf, wsiz);
      }
      Advance(n);
    }

    /** A read is over after its one transfer. */
    method EndRead(n: nat, invoke: bool)
      requires k.Inv() && reader.Some? && Live(k.procs, reader.value)
      modifies this, k
      ensures k.Inv() && k.World() == old(k.World()) && SameLive(k.procs, old(k.procs))
      ensures reader.None? && rbuf == rsiz == 0
      ensures woken == if invoke then old(woken) + [(old(reader).value, n)] else old(woken)
      ensures Rouses(old(k.procs), old(woken), k.procs, woken, {})
      ensures unchanged(`head, `len, `writer, `wref, `wbuf, `wptr, `wsiz, `accepted, `delivered, `finished, `payload)
    {
      hide Kernel.Inv, Kernel.World, Live, Rouses;
      RousesNone(k.procs, woken);
      if invoke {
        Wake(reader.value, n);
      }
      rbuf := 0;
      rsiz := 0;
      reader := None;
    }

    /** The first half of pipe_read: the bytes leave the ring and the reader is gone. */
    method Take(n: nat, invoke: bool)
      requires Valid() && Ready() && reader.Some? && n == Min(len, rsiz) && n > 0
      modifies this, k, k.m
      ensures Valid() && Ready() && SameLive(k.procs, old(k.procs)) && reader.None? && Sane(old(Abs())) && Abs() == Deliver(old(Abs()), invoke)
      ensures Rouses(old(k.procs), old(woken), k.procs, woken, {})
      ensures Ledger(old(k.m.St()), k.m.St(), WastedTo(old(k.m.St()), old(Abs()).reader, n), {})
      ensures old(k.KernelMapped()) ==> k.KernelMapped()
    {
      hide Rouses, KernelIn, WastedTo, Ledger, Kernel.Inv, Kernel.World, StoreAll, Buffer, Window, Live;
      MoveOut(n);
      EndRead(n, invoke);
    }

    /** The copy of pipe_write, up to the wake-up. */
    method MoveIn(n: nat)
      requires Valid() && Ready() && writer.Some? && n == Min(CAPACITY - len, wsiz - wptr) && n > 0
      modifies `len, `wptr, `accepted, buf, k.m
      ensures len == old(len) + n && wptr == old(wptr) + n
      ensures k.Inv() && k.World() == old(k.World()) && k.m.St() == old(k.m.St())
      ensures var data := Bytes(k.World(), writer.value, wbuf + old(wptr), n);
        Ring() == old(Ring()) + data && accepted == old(accepted) + data
    {
      hide Good, WorldOf, StoreAll, Bytes, Buffer, Window, Live;
      BufferInside(k.World(), writer.value, wbuf, wsiz, wptr, n);
      CopyIn(writer.value, n);
      accepted := accepted + Window(buf[..], head, len, n);
      WindowJoin(buf[..], head, len, n);
      wptr := wptr + n;
      len := len + n;
    }

    /** A write that has come to its end. */
    method EndWrite(invoke: bool)
      requires k.Inv() && writer.Some? && Live(k.procs, writer.value)
      modifies this, k
      ensures k.Inv() && k.World() == old(k.World()) && SameLive(k.procs, old(k.procs))
      ensures writer.None? && wbuf == wptr == wsiz == 0 && payload == [] && finished == old(finished + [payload])
      ensures woken == if invoke then old(woken) + [(old(writer).value, old(wsiz))] else old(woken)
      ensures Rouses(old(k.procs), old(woken), k.procs, woken, {})
      ensures unchanged(`head, `len, `reader, `wref, `rbuf, `rsiz, `accepted, `delivered)
    {
      hide Kernel.Inv, Kernel.World, Live, Rouses;
      RousesNone(k.procs, woken);
      if invoke {
        Wake(writer.value, wsiz);
      }
      ForgetWriter();
    }

    method ForgetWriter()
      modifies `finished, `payload, `wbuf, `wptr, `wsiz, `writer
      ensures writer.None? && wbuf == wptr == wsiz == 0 && payload == [] && finished == old(finished) + [old(payload)]
    {
      finished := finished + [payload];
      payload := [];
      wbuf := 0;
      wptr := 0;
      wsiz := 0;
      writer := None;
    }

    /** The first half of pipe_write: the bytes enter the ring, and a write that has come to its end is
        over. */
    method Put(n: nat, invoke: bool)
      requires Valid() && Ready() && writer.Some? && n == Min(CAPACITY - len, wsiz - wptr) && n > 0
      modifies this, buf, k, k.m
      ensures Valid() && Ready() && SameLive(k.procs, old(k.procs)) && reader == old(reader) && Sane(old(Abs())) && Abs() == Absorb(old(Abs()), invoke)
      ensures k.m.St() == old(k.m.St()) && Rouses(old(k.procs), old(woken), k.procs, woken, {})
    {
      hide Rouses, Kernel.Inv, Kernel.World, Bytes, Buffer, Window, Live;
      RousesNone(k.procs, woken);
      MoveIn(n);
      if wptr == wsiz {
        EndWrite(invoke);
      }
    }

    /** pipe_read. */
    method PipeRead(invoke: bool) returns (n: nat)
      requires Valid() && Ready() && reader.Some?
      modifies this, buf, k, k.m
      ensures Valid() && Ready() && Sane(old(Abs())) && Abs() == ReadAll(old(Abs()), invoke) && n == ReadChunk(old(Abs()))
      ensures SameLive(k.procs, old(k.procs)) && (old(k.KernelMapped()) ==> k.KernelMapped())
      ensures Ledger(old(k.m.St()), k.m.St(), WastedTo(old(k.m.St()), old(Abs()).reader, |ReadAllOut(old(Abs()))|), {})
      ensures Rouses(old(k.procs), old(woken), k.procs, woken, {})
      decreases if reader.Some? then 1 else 0, 0
    {
      hide Rouses, KernelIn, WastedIn, Ledger, Kernel.Inv, Kernel.World, Buffer, Window, Live, Deliver, Absorb;
      RousesNone(k.procs, woken);
      TidySame(k.m.St(), k.m.St());
      n := if len < rsiz then len else rsiz;
      if n == 0 {
        return;
      }
      Take(n, invoke);
      ghost var mid, procs, ws := k.m.St(), k.procs, woken;
      if writer.Some? {
        var x := PipeWrite(true);
        RousesTrans(old(k.procs), old(woken), procs, ws, k.procs, woken);
        LedgerTidy(old(k.m.St()), mid, k.m.St(), WastedTo(old(k.m.St()), old(Abs()).reader, n), {});
      }
    }

    /** pipe_write. */
    method PipeWrite(invoke: bool) returns (n: nat)
      requires Valid() && Ready() && writer.Some?
      modifies this, buf, k, k.m
      ensures Valid() && Ready() && Sane(old(Abs())) && Abs() == WriteAll(old(Abs()), invoke) && n == WriteChunk(old(Abs()))
      ensures SameLive(k.procs, old(k.procs)) && (old(k.KernelMapped()) ==> k.KernelMapped())
      ensures Ledger(old(k.m.St()), k.m.St(), WastedTo(old(k.m.St()), old(Abs()).reader, |WriteAllOut(old(Abs()))|), {})
      ensures Rouses(old(k.procs), old(woken), k.procs, woken, {})
      decreases if reader.Some? then 1 else 0, 1
    {
      hide Rouses, KernelIn, WastedIn, Ledger, Kernel.Inv, Kernel.World, Buffer, Window, Live, Deliver, Absorb;
      RousesNone(k.procs, woken);
      TidySame(k.m.St(), k.m.St());
      n := if BUFLEN - len - 1 < wsiz - wptr then BUFLEN - len - 1 else wsiz - wptr;
      if n == 0 {
        return;
      }
      Put(n, invoke);
      if reader.Some? {
        AbsorbOut(old(Abs()), invoke);
        ghost var procs, ws := k.procs, woken;
        var x := PipeRead(true);
        RousesTrans(old(k.procs), old(woken), procs, ws, k.procs, woken);
      }
    }

    /** The caller of sys_write is recorded as the writer. */
    method StartWrite(o: nat, va: nat, size: nat)
      requires Valid() && Ready() && writer.None? && size > 0 && Live(k.procs, o) && Buffer(k.World(), o, va, size, false)
      modifies `writer, `wsiz, `wptr, `wbuf, `payload
      ensures Valid() && Ready() && writer.Some?
      ensures Abs() == old(Abs()).(writer := Some(Writer(o, va, size, 0)), payload := Bytes(k.World(), o, va, size))
    {
      hide Kernel.Inv, Kernel.World, Bytes, Buffer, Window;
      writer := Some(o);
      wsiz := size;
      wptr := 0;
      wbuf := va;
      payload := Bytes(k.World(), o, va, size);
    }

    /** The pipe branch of sys_write: the caller is told the pipe is busy, or its bytes are all taken, or
        it sleeps. */
    method Write(o: nat, va: nat, size: nat) returns (out: Outcome)
      requires Valid() && Ready() && size > 0 && Live(k.procs, o) && Buffer(k.World(), o, va, size, false)
      modifies this, buf, k, k.m
      ensures Valid() && Ready() && Sane(old(Abs())) && (Abs(), out) == SysWrite(old(Abs()), o, va, size)
      ensures PipeInv(old(Abs())) && Allowed(old(Abs()), Event.Write(o, va, size)) ==> PipeInv(Abs())
      ensures old(k.KernelMapped()) ==> k.KernelMapped()
      ensures Ledger(old(k.m.St()), k.m.St(), WastedTo(old(k.m.St()), old(Abs()).reader, |WriteOut(old(Abs()), o, va, size)|), {})
      ensures Rouses(old(k.procs), old(woken), k.procs, woken, if out == Blocked then {o} else {})
      ensures out == Blocked ==> o < |k.procs| == |old(k.procs)| && k.procs[o] == old(k.procs)[o].(state := Pending)
      ensures forall i :: |old(woken)| <= i < |woken| ==> IsReady(k.procs, woken[i].0) || (out == Blocked && woken[i].0 == o)
    {
      hide Rouses, KernelIn, WastedIn, Ledger, Kernel.Inv, Kernel.World, Bytes, Buffer, Window, WriteAll, WriteAllOut, PipeInv, Allowed;
      RousesNone(k.procs, woken);
      TidySame(k.m.St(), k.m.St());
      WriteKeeps(Abs(), o, va, size);
      if writer.Some? {
        return Busy;
      }
      StartWrite(o, va, size);
      var n := PipeWrite(false);
      RousedReady(old(k.procs), old(woken), k.procs, woken, {});
      RousesBut(old(k.procs), old(woken), k.procs, woken, o);
      if n == size {
        return Done(n);
      }
      k.SetState(o, Pending);
      RousedReady(old(k.procs), old(woken), k.procs, woken, {o});
      return Blocked;
    }

    /** The caller of sys_read is recorded as the reader. */
    method StartRead(o: nat, va: nat, size: nat)
      requires Valid() && Ready() && reader.None? && size > 0 && Live(k.procs, o) && Buffer(k.World(), o, va, size, true) && k.m.nfree >= 3
      modifies `reader, `rsiz, `rbuf
      ensures Valid() && Ready() && reader.Some?
      ensures Abs() == old(Abs()).(reader := Some(Reader(o, va, size)))
    {
      hide Kernel.Inv, Kernel.World, Bytes, Buffer, Window;
      reader := Some(o);
      rsiz := size;
      rbuf := va;
    }

    /** The pipe branch of sys_read. */
    method Read(o: nat, va: nat, size: nat) returns (out: Outcome)
      requires Valid() && Ready() && size > 0 && Live(k.procs, o) && Buffer(k.World(), o, va, size, true) && k.m.nfree >= 3
      modifies this, buf, k, k.m
      ensures Valid() && Ready() && Sane(old(Abs())) && (Abs(), out) == SysRead(old(Abs()), o, va, size)
      ensures PipeInv(old(Abs())) && Allowed(old(Abs()), Event.Read(o, va, size)) ==> PipeInv(Abs())
      ensures old(k.KernelMapped()) ==> k.KernelMapped()
      ensures Ledger(old(k.m.St()), k.m.St(), WastedTo(old(k.m.St()), Some(Reader(o, va, size)), |ReadOut(old(Abs()), o, va, size)|), {})
      ensures Rouses(old(k.procs), old(woken), k.procs, woken, if out == Blocked then {o} else {})
      ensures out == Blocked ==> o < |k.procs| == |old(k.procs)| && k.procs[o] == old(k.procs)[o].(state := Pending) && woken == old(woken)
      ensures forall i :: |old(woken)| <= i < |woken| ==> IsReady(k.procs, woken[i].0)
    {
      hide Rouses, KernelIn, WastedIn, Ledger, Kernel.Inv, Kernel.World, Bytes, Buffer, Window, ReadAll, PipeInv, Allowed;
      RousesNone(k.procs, woken);
      TidySame(k.m.St(), k.m.St());
      ReadKeeps(Abs(), o, va, size);
      if reader.Some? {
        return Busy;
      }
      StartRead(o, va, size);
      if len > 0 {
        var n := PipeRead(false);
        RousedReady(old(k.procs), old(woken), k.procs, woken, {});
        return Done(n);
      }
      if wref == 0 {
        return Done(0);
      }
      RousesBut(old(k.procs), old(woken), k.procs, woken, o);
      k.SetState(o, Pending);
      return Blocked;
    }

    /** The pipe branch of sys_close and of clear_proc for the writing end. */
    method Close()
      requires Valid() && Ready() && wref > 0
      modifies this, k
      ensures Valid() && Ready() && Abs() == SysClose(old(Abs())) && SameLive(k.procs, old(k.procs))
      ensures Rouses(old(k.procs), old(woken), k.procs, woken, {})
      ensures forall i :: |old(woken)| <= i < |woken| ==> IsReady(k.procs, woken[i].0)
      ensures PipeInv(old(Abs())) && Allowed(old(Abs()), Event.Close) ==> PipeInv(Abs())
    {
      hide Rouses, Kernel.Inv, Kernel.World, Bytes, Buffer, Window, PipeInv, Allowed;
      CloseKeeps(Abs());
      RousesNone(k.procs, woken);
      wref := wref - 1;
      if wref == 0 && reader.Some? {
        Wake(reader.value, 0);
        RousedReady(old(k.procs), old(woken), k.procs, woken, {});
      }
    }
  }

  /** `frame` is the frame behind `va`, and its owner may write it now. */
  ghost predicate Writable(s: State, o: nat, va: nat, frame: nat)
  {
    HwLeaf(s, o, PathOf(va)).p && HwLeaf(s, o, PathOf(va)).w && frame == HwLeaf(s, o, PathOf(va)).frame
  }

  ghost predicate Readable(s: State, o: nat, va: nat, frame: nat)
  {
    HwLeaf(s, o, PathOf(va)).p && frame == HwLeaf(s, o, PathOf(va)).frame
  }

  lemma ReadableNext(s: State, o: nat, va: nat, frame: nat)
    requires Readable(s, o, va, frame) && (va + 1) % PAGE_SIZE != 0
    ensures Readable(s, o, va + 1, frame)
  {
    SameWalk(va);
  }

  lemma InStart(b: seq<Byte>, h: nat, len: nat, w: World, o: nat, va: nat)
    requires |b| == BUFLEN && h < BUFLEN && len <= CAPACITY
    ensures Window(b, h, len, 0) == Bytes(w, o, va, 0)
  {
  }

  lemma BufferShrinks(w: World, o: nat, va: nat, n: nat, m: nat, write: bool)
    requires Buffer(w, o, va, n, write) && m <= n
    ensures Buffer(w, o, va, m, write)
  {
  }

  lemma BufferInside(w: World, o: nat, va: nat, n: nat, i: nat, m: nat)
    requires Buffer(w, o, va, n, false) && i + m <= n
    ensures Buffer(w, o, va + i, m, false)
  {
  }

  /** What a reader stores leaves the buffer of the writer in place. */
  lemma BufferElsewhere(w: World, o: nat, va: nat, data: seq<Byte>, q: nat, qa: nat, n: nat)
    requires Buffer(w, q, qa, n, false)
    ensures Buffer(StoreAll(w, o, va, data), q, qa, n, false)
  {
    hide StoreAll, Mapped, CanStore;
    StoreAllOthers(w, o, va, data, q);
  }

  lemma BufferEnd(w: World, o: nat, va: nat, n: nat, write: bool)
    requires Buffer(w, o, va, n, write)
    ensures va + n < UMAX_ADDRESS
  {
  }

  lemma BufferAt(w: World, o: nat, va: nat, n: nat, x: nat)
    requires Buffer(w, o, va, n, false) && va <= x <= va + n
    ensures Mapped(w, o, x) && x < UMAX_ADDRESS
  {
  }
}
