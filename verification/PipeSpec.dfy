/** What a pipe does, on values: a queue of bytes between at most one waiting reader and at most one
    waiting writer, and the user memories it copies from and to. */
module PipeSpec {
  import opened Results
  import opened Words
  import opened Paths
  import opened DeepCopy

  /** PIPE_BUFLEN: a page less the 64 bytes of `struct pipe`; one slot stays empty. */
  const BUFLEN: nat := 4032
  const CAPACITY: nat := 4031

  datatype Reader = Reader(o: nat, va: nat, size: nat)
  datatype Writer = Writer(o: nat, va: nat, size: nat, done: nat)

  /** `ring` is what the pipe holds, `writers` how many descriptors of its writing end there are, `world`
      the memories of all processes. The rest is history:
      bytes accepted from writers and delivered to readers, the payload of each finished write and of
      the write in progress as they were when the call was made, and the processes woken, each with
      the value it finds in rax. */
  datatype PipeState = PipeState(
    ring: seq<Byte>,
    reader: Option<Reader>,
    writer: Option<Writer>,
    writers: nat,
    world: World,
    accepted: seq<Byte>,
    delivered: seq<Byte>,
    finished: seq<seq<Byte>>,
    payload: seq<Byte>,
    woken: seq<(nat, nat)>)

  // ---------------------------------------------------------------- user memory

  ghost function Peek0(w: World, o: nat, va: nat): (b: Byte)
  {
    if Mapped(w, o, va) then Peek(w, o, va) else 0
  }

  ghost function Store0(w: World, o: nat, va: nat, b: Byte): (r: World)
  {
    if Mapped(w, o, va) then Store(w, o, va, b) else w
  }

  /** `n` bytes of process `o` from `va` on. */
  ghost function Bytes(w: World, o: nat, va: nat, n: nat): (r: seq<Byte>)
    ensures |r| == n
  {
    if n == 0 then [] else Bytes(w, o, va, n - 1) + [Peek0(w, o, va + n - 1)]
  }

  /** `data` stored at consecutive addresses. */
  ghost function StoreAll(w: World, o: nat, va: nat, data: seq<Byte>): (r: World)
  {
    if data == [] then w
    else var n := |data| - 1; Store0(StoreAll(w, o, va, data[..n]), o, va + n, data[n])
  }

  /** Nobody else's memory changes, and no mapping or permission does. */
  lemma {:induction false} StoreAllOthers(w: World, o: nat, va: nat, data: seq<Byte>, q: nat)
    ensures StoreAll(w, o, va, data).Keys == w.Keys
    ensures q != o && q in w ==> StoreAll(w, o, va, data)[q] == w[q]
    ensures forall x :: Mapped(StoreAll(w, o, va, data), q, x) <==> Mapped(w, q, x)
    ensures forall x :: CanStore(StoreAll(w, o, va, data), q, x) <==> CanStore(w, q, x)
    decreases |data|
  {
    if data != [] {
      StoreAllOthers(w, o, va, data[..|data| - 1], q);
    }
  }

  /** Reading back after the copy: the copied bytes at their addresses, everything else as before. */
  lemma {:induction false} StoreAllPeek(w: World, o: nat, va: nat, data: seq<Byte>, q: nat, x: nat)
    requires va + |data| <= UMAX_ADDRESS && x < UMAX_ADDRESS && Mapped(w, q, x)
    requires forall y :: va <= y < va + |data| ==> Mapped(w, o, y)
    ensures Peek0(StoreAll(w, o, va, data), q, x) ==
      if q == o && va <= x < va + |data| then data[x - va] else Peek(w, q, x)
    decreases |data|
  {
    hide Mapped, CanStore, Peek, Store, PathOf;
    if data != [] {
      var n := |data| - 1;
      StoreAllPeek(w, o, va, data[..n], q, x);
      StoreAllOthers(w, o, va, data[..n], q);
      StoreAllOthers(w, o, va, data[..n], o);
      var y := va + n;
      assert Mapped(w, o, y);
      StorePeek(StoreAll(w, o, va, data[..n]), o, va + n, data[n], q, x);
    }
  }

  // ---------------------------------------------------------------- one transfer

  /** How much a write puts into the ring, and how much a read takes out of it. */
  ghost function WriteChunk(s: PipeState): (n: nat)
    requires s.writer.Some? && |s.ring| <= CAPACITY && s.writer.value.done <= s.writer.value.size
  {
    Min(CAPACITY - |s.ring|, s.writer.value.size - s.writer.value.done)
  }

  ghost function ReadChunk(s: PipeState): (n: nat)
    requires s.reader.Some?
  {
    Min(|s.ring|, s.reader.value.size)
  }

  /** Sane fields: what every call of pipe_read and pipe_write may rely on. */
  ghost predicate Sane(s: PipeState)
  {
    && |s.ring| <= CAPACITY
    && (s.writer.Some? ==> s.writer.value.done < s.writer.value.size)
    && (s.reader.Some? ==> s.reader.value.size > 0)
  }

  /** pipe_write up to the point where it looks for a reader. */
  ghost function Absorb(s: PipeState, invoke: bool): (t: PipeState)
    requires Sane(s) && s.writer.Some?
  {
    var w := s.writer.value;
    var n := WriteChunk(s);
    var data := Bytes(s.world, w.o, w.va + w.done, n);
    var full := w.done + n == w.size;
    s.(ring := s.ring + data, accepted := s.accepted + data,
       writer := if full then None else Some(w.(done := w.done + n)),
       finished := if full then s.finished + [s.payload] else s.finished,
       payload := if full then [] else s.payload,
       woken := if full && invoke then s.woken + [(w.o, w.size)] else s.woken)
  }

  /** pipe_read up to the point where it looks for a writer. */
  ghost function Deliver(s: PipeState, invoke: bool): (t: PipeState)
    requires Sane(s) && s.reader.Some?
  {
    var r := s.reader.value;
    var n := ReadChunk(s);
    s.(ring := s.ring[n..], delivered := s.delivered + s.ring[..n],
       world := StoreAll(s.world, r.o, r.va, s.ring[..n]),
       reader := None, woken := if invoke then s.woken + [(r.o, n)] else s.woken)
  }

  // ---------------------------------------------------------------- the two calls

  ghost function Rank(s: PipeState): (n: nat)
  {
    if s.reader.Some? then 1 else 0
  }

  /** pipe_write, with the wake-ups it causes. */
  ghost function WriteAll(s: PipeState, invoke: bool): (t: PipeState)
    requires Sane(s) && s.writer.Some?
    ensures Sane(t)
    decreases Rank(s), 1
  {
    if WriteChunk(s) == 0 then s
    else
      var t := Absorb(s, invoke);
      if t.reader.Some? then ReadAll(t, true) else t
  }

  /** pipe_read, with the wake-ups it causes. */
  ghost function ReadAll(s: PipeState, invoke: bool): (t: PipeState)
    requires Sane(s) && s.reader.Some?
    ensures Sane(t)
    decreases Rank(s), 0
  {
    if ReadChunk(s) == 0 then s
    else
      var t := Deliver(s, invoke);
      if t.writer.Some? then WriteAll(t, true) else t
  }

  /** The two calls nest at most write, read, write: a call made on behalf of a reader finds none. */
  lemma NestingEnds(s: PipeState, invoke: bool)
    requires Sane(s) && s.reader.Some? && ReadChunk(s) > 0
    ensures ReadAll(s, invoke) ==
      (var t := Deliver(s, invoke); if t.writer.Some? && WriteChunk(t) > 0 then Absorb(t, true) else t)
  {
  }

  // ---------------------------------------------------------------- what every run keeps

  ghost function Flatten(ss: seq<seq<Byte>>): (r: seq<Byte>)
  {
    if ss == [] then [] else Flatten(ss[..|ss| - 1]) + ss[|ss| - 1]
  }

  /** The writer's buffer still holds what it held when the write was called, and the reader is another
      process. */
  ghost predicate WriterOk(s: PipeState)
  {
    s.writer.Some? ==>
      && |s.payload| == s.writer.value.size
      && Bytes(s.world, s.writer.value.o, s.writer.value.va, s.writer.value.size) == s.payload
      && (s.reader.Some? ==> s.reader.value.o != s.writer.value.o)
  }

  /** Bytes come out in the order they went in, none lost, none made up; and the bytes of one write
      stand together. */
  ghost predicate Stream(s: PipeState)
  {
    && Sane(s) && WriterOk(s)
    && s.accepted == s.delivered + s.ring
    && s.accepted == Flatten(s.finished) + (if s.writer.Some? then s.payload[..s.writer.value.done] else [])
  }

  /** Between calls a waiting writer means a full ring and a waiting reader an empty one. */
  ghost predicate Rest(s: PipeState)
  {
    && (s.writer.Some? ==> |s.ring| == CAPACITY)
    && (s.reader.Some? ==> s.ring == [])
  }

  lemma NeverBothWait(s: PipeState)
    requires Rest(s)
    ensures !(s.writer.Some? && s.reader.Some?)
  {
  }

  lemma {:induction false} BytesSlice(w: World, o: nat, va: nat, n: nat, i: nat, j: nat)
    requires i <= j <= n
    ensures Bytes(w, o, va, n)[i..j] == Bytes(w, o, va + i, j - i)
    decreases n
  {
    hide Peek0;
    if n > 0 {
      if j < n {
        BytesSlice(w, o, va, n - 1, i, j);
        assert Bytes(w, o, va, n)[i..j] == Bytes(w, o, va, n - 1)[i..j];
      } else if i < n {
        BytesSlice(w, o, va, n - 1, i, n - 1);
        assert Bytes(w, o, va, n)[i..n] == Bytes(w, o, va, n - 1)[i..n - 1] + [Peek0(w, o, va + n - 1)];
      }
    }
  }

  lemma {:induction false} BytesSame(w: World, w': World, o: nat, va: nat, n: nat)
    requires o in w && o in w' && w[o] == w'[o]
    ensures Bytes(w', o, va, n) == Bytes(w, o, va, n)
  {
    if n > 0 {
      BytesSame(w, w', o, va, n - 1);
    }
  }

  lemma FlattenNext(ss: seq<seq<Byte>>, x: seq<Byte>)
    ensures Flatten(ss + [x]) == Flatten(ss) + x
  {
    assert (ss + [x])[..|ss|] == ss;
  }

  lemma AbsorbData(s: PipeState)
    requires Stream(s) && s.writer.Some?
    ensures var w := s.writer.value; var n := WriteChunk(s);
      s.payload[..w.done] + Bytes(s.world, w.o, w.va + w.done, n) == s.payload[..w.done + n]
  {
    hide Bytes, Flatten;
    var w := s.writer.value;
    var n := WriteChunk(s);
    BytesSlice(s.world, w.o, w.va, w.size, w.done, w.done + n);
    assert s.payload[..w.done] + s.payload[w.done..w.done + n] == s.payload[..w.done + n];
  }

  lemma AbsorbStream(s: PipeState, invoke: bool)
    requires Stream(s) && s.writer.Some?
    ensures Stream(Absorb(s, invoke))
  {
    hide Bytes, Flatten;
    var w := s.writer.value;
    var n := WriteChunk(s);
    var data := Bytes(s.world, w.o, w.va + w.done, n);
    AbsorbData(s);
    FlattenNext(s.finished, s.payload);
    assert s.delivered + s.ring + data == s.delivered + (s.ring + data);
    assert Flatten(s.finished) + s.payload[..w.done] + data == Flatten(s.finished) + (s.payload[..w.done] + data);
    assert s.payload[..w.size] == s.payload;
    var t := Absorb(s, invoke);
    assert Sane(t) && WriterOk(t);
  }

  lemma DeliverStream(s: PipeState, invoke: bool)
    requires Stream(s) && s.reader.Some? && (s.writer.Some? ==> s.writer.value.o in s.world)
    ensures Stream(Deliver(s, invoke))
  {
    var n := ReadChunk(s);
    assert s.ring == s.ring[..n] + s.ring[n..];
    if s.writer.Some? {
      var w := s.writer.value;
      StoreAllOthers(s.world, s.reader.value.o, s.reader.value.va, s.ring[..n], w.o);
      BytesSame(s.world, Deliver(s, invoke).world, w.o, w.va, w.size);
    }
  }

  /** The writer is a living process (or there is none). */
  ghost predicate WriterLive(s: PipeState)
  {
    s.writer.Some? ==> s.writer.value.o in s.world
  }

  lemma DeliverLive(s: PipeState, invoke: bool)
    requires Sane(s) && s.reader.Some? && WriterLive(s)
    ensures WriterLive(Deliver(s, invoke)) && Sane(Deliver(s, invoke))
  {
    StoreAllOthers(s.world, s.reader.value.o, s.reader.value.va, s.ring[..ReadChunk(s)], 0);
  }

  lemma ReadStream(s: PipeState, invoke: bool)
    requires Stream(s) && s.reader.Some? && WriterLive(s)
    ensures Stream(ReadAll(s, invoke)) && WriterLive(ReadAll(s, invoke))
  {
    if ReadChunk(s) != 0 {
      var t := Deliver(s, invoke);
      DeliverStream(s, invoke);
      DeliverLive(s, invoke);
      if t.writer.Some? && WriteChunk(t) != 0 {
        AbsorbStream(t, true);
      }
    }
  }

  lemma WriteStream(s: PipeState, invoke: bool)
    requires Stream(s) && s.writer.Some? && WriterLive(s)
    ensures Stream(WriteAll(s, invoke)) && WriterLive(WriteAll(s, invoke))
  {
    if WriteChunk(s) != 0 {
      AbsorbStream(s, invoke);
      var t := Absorb(s, invoke);
      if t.reader.Some? {
        ReadStream(t, true);
      }
    }
  }

  // ---------------------------------------------------------------- the system calls

  /** The pipe branch of sys_write. */
  ghost function SysWrite(s: PipeState, o: nat, va: nat, size: nat): (r: (PipeState, Outcome))
    requires Sane(s) && size > 0
    ensures Sane(r.0)
  {
    if s.writer.Some? then (s, Busy)
    else
      var t := s.(writer := Some(Writer(o, va, size, 0)), payload := Bytes(s.world, o, va, size));
      var n := WriteChunk(t);
      (WriteAll(t, false), if n == size then Done(n) else Blocked)
  }

  /** The pipe branch of sys_read. Without a writing end an empty pipe is at its end. */
  ghost function SysRead(s: PipeState, o: nat, va: nat, size: nat): (r: (PipeState, Outcome))
    requires Sane(s) && size > 0
    ensures Sane(r.0)
  {
    if s.reader.Some? then (s, Busy)
    else
      var t := s.(reader := Some(Reader(o, va, size)));
      if |s.ring| > 0 then (ReadAll(t, false), Done(ReadChunk(t))) else (t, if s.writers == 0 then Done(0) else Blocked)
  }

  /** The bytes that go to the reader in the course of a call. */
  ghost function ReadAllOut(s: PipeState): (data: seq<Byte>)
    requires s.reader.Some?
    ensures |data| == ReadChunk(s)
  {
    s.ring[..ReadChunk(s)]
  }

  ghost function WriteAllOut(s: PipeState): (data: seq<Byte>)
    requires Sane(s) && s.writer.Some?
  {
    if WriteChunk(s) == 0 || s.reader.None? then [] else ReadAllOut(Absorb(s, false))
  }

  ghost function ReadOut(s: PipeState, o: nat, va: nat, size: nat): (data: seq<Byte>)
  {
    if s.reader.Some? then [] else ReadAllOut(s.(reader := Some(Reader(o, va, size))))
  }

  ghost function WriteOut(s: PipeState, o: nat, va: nat, size: nat): (data: seq<Byte>)
    requires Sane(s) && size > 0
  {
    if s.writer.Some? then []
    else WriteAllOut(s.(writer := Some(Writer(o, va, size, 0)), payload := Bytes(s.world, o, va, size)))
  }

  lemma AbsorbOut(s: PipeState, invoke: bool)
    requires Sane(s) && s.writer.Some? && s.reader.Some? && WriteChunk(s) != 0
    ensures Absorb(s, invoke).reader == s.reader && WriteAllOut(s) == ReadAllOut(Absorb(s, invoke))
  {
  }

  /** A read stores the bytes that go out at the caller's address and does nothing else to memory. */
  lemma ReadWorld(s: PipeState, o: nat, va: nat, size: nat)
    requires Sane(s) && size > 0
    ensures SysRead(s, o, va, size).0.world == StoreAll(s.world, o, va, ReadOut(s, o, va, size))
    ensures SysRead(s, o, va, size).0.delivered == s.delivered + ReadOut(s, o, va, size)
  {
    if s.reader.None? && s.ring != [] {
      NestingEnds(s.(reader := Some(Reader(o, va, size))), false);
    }
  }

  /** A write stores the bytes that go out at the address of the waiting reader. */
  lemma WriteWorld(s: PipeState, o: nat, va: nat, size: nat)
    requires Sane(s) && size > 0
    ensures var t := SysWrite(s, o, va, size).0; var data := WriteOut(s, o, va, size);
      && t.world == (if s.reader.None? then s.world else StoreAll(s.world, s.reader.value.o, s.reader.value.va, data))
      && t.delivered == s.delivered + data
  {
    hide StoreAll, Bytes;
    if s.writer.None? {
      var t := s.(writer := Some(Writer(o, va, size, 0)), payload := Bytes(s.world, o, va, size));
      AbsorbFills(t, false);
      if WriteChunk(t) != 0 && t.reader.Some? {
        NestingEnds(Absorb(t, false), true);
      }
    }
    StoreNone(s.world, if s.reader.Some? then s.reader.value.o else 0, if s.reader.Some? then s.reader.value.va else 0);
  }

  lemma StoreNone(w: World, o: nat, va: nat)
    ensures StoreAll(w, o, va, []) == w
  {
  }

  // ---------------------------------------------------------------- what the callers are told

  /** A read is refused exactly if somebody waits; it sleeps, recorded as the reader, exactly if there is nothing to
      read and a writing end; else it is told how many bytes it got, which are as many of the first as there are or
      as it asked for. */
  lemma ReadAnswers(s: PipeState, o: nat, va: nat, size: nat)
    requires Sane(s) && size > 0
    ensures var (t, out) := SysRead(s, o, va, size); var data := ReadOut(s, o, va, size);
      && (out == Busy <==> s.reader.Some?) && (out == Busy ==> t == s)
      && (out == Blocked <==> s.reader.None? && s.ring == [] && s.writers > 0)
      && (out == Blocked ==> t == s.(reader := Some(Reader(o, va, size))))
      && (out.Done? ==> out.n == |data| && data <= s.ring && |data| <= size && (|data| == size || data == s.ring))
  {
  }

  /** In a read the writer may be woken, with the size of its write: exactly if the write is finished in it. */
  lemma ReadWakes(s: PipeState, o: nat, va: nat, size: nat)
    requires Sane(s) && size > 0
    ensures var t := SysRead(s, o, va, size).0; var ended := s.writer.Some? && t.writer.None?;
      && t.woken == s.woken + (if ended then [(s.writer.value.o, s.writer.value.size)] else [])
      && t.finished == s.finished + (if ended then [s.payload] else [])
  {
    hide Bytes, StoreAll;
    if s.reader.None? && s.ring != [] {
      NestingEnds(s.(reader := Some(Reader(o, va, size))), false);
    }
  }

  /** A write is refused exactly if somebody waits to write; it is told its size exactly if all of it fits into the
      ring; else it sleeps. */
  lemma WriteAnswers(s: PipeState, o: nat, va: nat, size: nat)
    requires Sane(s) && size > 0
    ensures var (t, out) := SysWrite(s, o, va, size);
      && (out == Busy <==> s.writer.Some?) && (out == Busy ==> t == s)
      && (out.Done? <==> s.writer.None? && |s.ring| + size <= CAPACITY) && (out.Done? ==> out.n == size)
  {
    hide Bytes, StoreAll;
  }

  /** In a write the reader is woken, with the number of bytes it was given: exactly if it is recorded no longer. The
      writer itself is woken, with its size, exactly if it is about to be put to sleep although nothing is left. */
  lemma WriteWakes(s: PipeState, o: nat, va: nat, size: nat)
    requires Sane(s) && size > 0
    ensures var (t, out) := SysWrite(s, o, va, size);
      t.woken == s.woken + (if s.reader.Some? && t.reader.None? then [(s.reader.value.o, |WriteOut(s, o, va, size)|)] else [])
                         + (if out == Blocked && t.writer.None? then [(o, size)] else [])
  {
    hide Bytes, StoreAll;
    if s.writer.None? {
      var t := s.(writer := Some(Writer(o, va, size, 0)), payload := Bytes(s.world, o, va, size));
      AbsorbFills(t, false);
      if WriteChunk(t) != 0 && t.reader.Some? {
        NestingEnds(Absorb(t, false), true);
      }
    }
  }

  /** The bytes of a buffer, one by one. */
  lemma {:induction false} BytesAt(w: World, o: nat, va: nat, n: nat, i: nat)
    requires i < n && Mapped(w, o, va + i)
    ensures Bytes(w, o, va, n)[i] == Peek(w, o, va + i)
  {
    hide Peek;
    if i < n - 1 {
      BytesAt(w, o, va, n - 1, i);
    }
  }

  /** A write that has not come to its end has filled the ring. */
  lemma AbsorbFills(s: PipeState, invoke: bool)
    requires Sane(s) && s.writer.Some?
    ensures Sane(Absorb(s, invoke)) && |Absorb(s, invoke).ring| == |s.ring| + WriteChunk(s)
    ensures Absorb(s, invoke).writer.Some? ==> |Absorb(s, invoke).ring| == CAPACITY
    ensures Absorb(s, invoke).reader == s.reader
  {
  }

  lemma ReadAllRest(s: PipeState, invoke: bool)
    requires Sane(s) && s.reader.Some? && s.ring != []
    ensures Rest(ReadAll(s, invoke))
  {
    var t := Deliver(s, invoke);
    if t.writer.Some? {
      AbsorbFills(t, true);
    }
  }

  lemma WriteRest(s: PipeState, o: nat, va: nat, size: nat)
    requires Sane(s) && Rest(s) && size > 0
    ensures Rest(SysWrite(s, o, va, size).0)
  {
    if s.writer.None? {
      var t := s.(writer := Some(Writer(o, va, size, 0)), payload := Bytes(s.world, o, va, size));
      AbsorbFills(t, false);
      if WriteChunk(t) != 0 && t.reader.Some? {
        ReadAllRest(Absorb(t, false), true);
      }
    }
  }

  lemma ReadRest(s: PipeState, o: nat, va: nat, size: nat)
    requires Sane(s) && Rest(s) && size > 0
    ensures Rest(SysRead(s, o, va, size).0)
  {
    if s.reader.None? && s.ring != [] {
      ReadAllRest(s.(reader := Some(Reader(o, va, size))), false);
    }
  }

  // ---------------------------------------------------------------- whole runs

  /** The last descriptor of the writing end goes: a waiting reader is woken with 0, and stays recorded. */
  ghost function SysClose(s: PipeState): (t: PipeState)
    requires s.writers > 0
  {
    var t := s.(writers := s.writers - 1);
    if t.writers == 0 && s.reader.Some? then t.(woken := s.woken + [(s.reader.value.o, 0)]) else t
  }

  /** What can happen to a pipe: a read, a write, a descriptor of the writing end more (fork) or less
      (close, or the end of a process), or anything else in the system, as long as the memory of the
      waiting writer stays as it is (it is not running, and nobody else can write it). */
  datatype Event =
    | Read(o: nat, va: nat, size: nat)
    | Write(o: nat, va: nat, size: nat)
    | Inherit
    | Close
    | Elsewhere(world: World)

  ghost predicate Allowed(s: PipeState, e: Event)
  {
    match e
    case Read(o, va, size) => size > 0 && o in s.world && (s.writer.Some? ==> s.writer.value.o != o)
    case Write(o, va, size) => size > 0 && s.writers > 0 && o in s.world && (s.reader.Some? ==> s.reader.value.o != o)
    case Inherit => s.writers > 0
    case Close => s.writers > (if s.writer.Some? then 1 else 0)
    case Elsewhere(w) =>
      s.writer.Some? ==> s.writer.value.o in s.world && s.writer.value.o in w && w[s.writer.value.o] == s.world[s.writer.value.o]
  }

  ghost function Next(s: PipeState, e: Event): (t: PipeState)
    requires Sane(s) && Allowed(s, e)
    ensures Sane(t)
  {
    match e
    case Read(o, va, size) => SysRead(s, o, va, size).0
    case Write(o, va, size) => SysWrite(s, o, va, size).0
    case Inherit => s.(writers := s.writers + 1)
    case Close => SysClose(s)
    case Elsewhere(w) => s.(world := w)
  }

  /** The invariant of every run. */
  ghost predicate PipeInv(s: PipeState)
  {
    Stream(s) && Rest(s) && WriterLive(s)
  }

  lemma NextKeeps(s: PipeState, e: Event)
    requires PipeInv(s) && Allowed(s, e)
    ensures PipeInv(Next(s, e))
  {
    hide Bytes, Flatten, ReadAll, WriteAll;
    match e
    case Read(o, va, size) =>
      ReadRest(s, o, va, size);
      if s.reader.None? && s.ring != [] {
        ReadStream(s.(reader := Some(Reader(o, va, size))), false);
      }
    case Write(o, va, size) =>
      WriteRest(s, o, va, size);
      if s.writer.None? {
        WriteStream(s.(writer := Some(Writer(o, va, size, 0)), payload := Bytes(s.world, o, va, size)), false);
      }
    case Inherit =>
    case Close =>
    case Elsewhere(w) =>
      if s.writer.Some? {
        BytesSame(s.world, w, s.writer.value.o, s.writer.value.va, s.writer.value.size);
      }
  }

  lemma ReadKeeps(s: PipeState, o: nat, va: nat, size: nat)
    requires Sane(s) && size > 0
    ensures PipeInv(s) && Allowed(s, Read(o, va, size)) ==> PipeInv(SysRead(s, o, va, size).0)
  {
    hide PipeInv, Allowed, SysRead;
    if PipeInv(s) && Allowed(s, Read(o, va, size)) {
      NextKeeps(s, Read(o, va, size));
    }
  }

  lemma WriteKeeps(s: PipeState, o: nat, va: nat, size: nat)
    requires Sane(s) && size > 0
    ensures PipeInv(s) && Allowed(s, Write(o, va, size)) ==> PipeInv(SysWrite(s, o, va, size).0)
  {
    hide PipeInv, Allowed, SysWrite;
    if PipeInv(s) && Allowed(s, Write(o, va, size)) {
      NextKeeps(s, Write(o, va, size));
    }
  }

  lemma CloseKeeps(s: PipeState)
    requires Sane(s) && s.writers > 0
    ensures PipeInv(s) && Allowed(s, Close) ==> PipeInv(SysClose(s))
  {
    hide PipeInv, Allowed, SysClose;
    if PipeInv(s) && Allowed(s, Close) {
      NextKeeps(s, Close);
    }
  }

  ghost function Empty(w: World): (s: PipeState)
  {
    PipeState([], None, None, 1, w, [], [], [], [], [])
  }

  ghost predicate IsRun(ss: seq<PipeState>, es: seq<Event>)
  {
    && |ss| == |es| + 1 && ss[0] == Empty(ss[0].world)
    && forall i :: 0 <= i < |es| ==> Sane(ss[i]) && Allowed(ss[i], es[i]) && ss[i + 1] == Next(ss[i], es[i])
  }

  /** In every state of every run the bytes accepted are the bytes delivered followed by the ring, they
      are the payloads of the writes one after the other, and the waiting discipline holds. */
  lemma {:induction false} RunKeeps(ss: seq<PipeState>, es: seq<Event>, i: nat)
    requires IsRun(ss, es) && i < |ss|
    ensures PipeInv(ss[i])
  {
    hide Stream, Rest, Next;
    if i == 0 {
      EmptyOk(ss[0].world);
    } else {
      RunKeeps(ss, es, i - 1);
      NextKeeps(ss[i - 1], es[i - 1]);
    }
  }

  lemma EmptyOk(w: World)
    ensures PipeInv(Empty(w))
  {
  }

  // ---------------------------------------------------------------- the end of the stream

  /** What a read finds once the writing end is gone: what is left, or 0 at the end; and 0 exactly then. */
  lemma EndOfFile(s: PipeState, o: nat, va: nat, size: nat)
    requires PipeInv(s) && size > 0
    ensures var (t, out) := SysRead(s, o, va, size);
      && (out == Done(0) <==> s.writers == 0 && s.ring == [] && s.reader.None?)
      && (out == Done(0) ==> Spent(t))
      && (s.writers == 0 ==> out != Blocked)
  {
  }

  /** Nobody can write any more, and somebody is recorded as waiting for it. */
  ghost predicate Spent(s: PipeState)
  {
    s.writers == 0 && s.reader.Some?
  }

  /** Closing the last descriptor under a waiting reader gives it its 0 and leaves it recorded; any other close only
      counts. */
  lemma CloseSpends(s: PipeState)
    requires s.writers > 0
    ensures Spent(SysClose(s)) <==> s.writers == 1 && s.reader.Some?
    ensures SysClose(s).writers + 1 == s.writers && SysClose(s).(writers := s.writers, woken := s.woken) == s
    ensures SysClose(s).woken == s.woken + (if s.writers == 1 && s.reader.Some? then [(s.reader.value.o, 0)] else [])
  {
  }

  /** The end is reported once: in every run, after the first 0 every read of the pipe, by whoever it is,
      is refused as busy, because nobody takes the reader's name off. */
  lemma {:induction false} EndOnce(ss: seq<PipeState>, es: seq<Event>, i: nat, j: nat)
    requires IsRun(ss, es) && i <= j < |ss| && Spent(ss[i])
    ensures Spent(ss[j]) && ss[j].reader == ss[i].reader
    ensures j < |es| && es[j].Read? ==> SysRead(ss[j], es[j].o, es[j].va, es[j].size).1 == Busy
  {
    if i < j {
      EndOnce(ss, es, i, j - 1);
      var s, e := ss[j - 1], es[j - 1];
      assert ss[j - 1 + 1] == Next(s, e) && Allowed(s, e);
    }
  }

  /** This happens: the only writing end is closed, one process reads and gets its 0, and the next read is refused,
      whoever makes it. */
  lemma EndOnceHappens(w: World, o: nat, va: nat, n: nat, q: nat, vb: nat, m: nat) returns (ss: seq<PipeState>, es: seq<Event>)
    requires o in w && q in w && n > 0 && m > 0
    ensures es == [Close, Read(o, va, n), Read(q, vb, m)] && IsRun(ss, es) && ss[0] == Empty(w)
    ensures SysRead(ss[1], o, va, n).1 == Done(0) && Spent(ss[2]) && SysRead(ss[2], q, vb, m).1 == Busy
  {
    es := [Close, Read(o, va, n), Read(q, vb, m)];
    var s1 := Empty(w).(writers := 0);
    var s2 := s1.(reader := Some(Reader(o, va, n)));
    ss := [Empty(w), s1, s2, s2];
    assert s1 == Next(Empty(w), es[0]) && s2 == Next(s1, es[1]) && s2 == Next(s2, es[2]);
  }

  // ---------------------------------------------------------------- the lost wake-up

  /** sys_write puts its caller to sleep whenever the first transfer was not the whole write. When a
      waiting reader drained the ring in between, the rest may have been written already by the nested
      call, and nobody will wake the caller. This happens exactly for a waiting reader and a write that
      is longer than the ring by no more than the reader took. */
  lemma LostWakeUp(s: PipeState, o: nat, va: nat, size: nat)
    requires Sane(s) && Rest(s) && size > 0 && s.writer.None?
    ensures var (t, out) := SysWrite(s, o, va, size);
      out == Blocked && t.writer.None? <==>
        s.reader.Some? && CAPACITY < size <= CAPACITY + Min(CAPACITY, s.reader.value.size)
  {
    hide Bytes;
    var t := s.(writer := Some(Writer(o, va, size, 0)), payload := Bytes(s.world, o, va, size));
    AbsorbFills(t, false);
    var u := Absorb(t, false);
    if s.reader.Some? && WriteChunk(t) != 0 {
      NestingEnds(u, true);
      var x := Deliver(u, true);
      if x.writer.Some? {
        AbsorbFills(x, true);
      }
    }
  }

  /** This happens: in a new pipe a reader waits, and another process writes one byte more than the ring holds.
      The run ends with the writer asleep and nobody recorded as waiting. */
  lemma LostWakeUpHappens(w: World, o: nat, q: nat, va: nat, vb: nat, size: nat) returns (ss: seq<PipeState>, es: seq<Event>)
    requires o in w && q in w && o != q && size > 0
    ensures es == [Read(o, va, size), Write(q, vb, CAPACITY + 1)] && IsRun(ss, es) && ss[0] == Empty(w)
    ensures SysWrite(ss[1], q, vb, CAPACITY + 1).1 == Blocked && ss[2].writer.None? && ss[2].reader.None?
  {
    hide Bytes, StoreAll;
    es := [Read(o, va, size), Write(q, vb, CAPACITY + 1)];
    var s1 := Next(Empty(w), es[0]);
    assert s1 == Empty(w).(reader := Some(Reader(o, va, size)));
    var s2 := Next(s1, es[1]);
    ss := [Empty(w), s1, s2];
    LostWakeUp(s1, q, vb, CAPACITY + 1);
    WriteRest(s1, q, vb, CAPACITY + 1);
    ReaderServed(s1, q, vb, CAPACITY + 1);
  }

  /** A write of anything serves a waiting reader. */
  lemma ReaderServed(s: PipeState, o: nat, va: nat, size: nat)
    requires Sane(s) && s.ring == [] && s.reader.Some? && s.writer.None? && size > 0
    ensures SysWrite(s, o, va, size).0.reader.None?
  {
    hide Bytes, StoreAll;
    var t := s.(writer := Some(Writer(o, va, size, 0)), payload := Bytes(s.world, o, va, size));
    AbsorbFills(t, false);
    NestingEnds(Absorb(t, false), true);
  }

  /** A write that blocks is recorded as waiting, except in that case. */
  lemma BlockedMeansWaiting(s: PipeState, o: nat, va: nat, size: nat)
    requires Sane(s) && Rest(s) && size > 0 && s.writer.None?
    requires !(s.reader.Some? && CAPACITY < size <= CAPACITY + Min(CAPACITY, s.reader.value.size))
    ensures var (t, out) := SysWrite(s, o, va, size); out == Blocked <==> t.writer.Some?
  {
    hide Bytes;
    LostWakeUp(s, o, va, size);
    var t := s.(writer := Some(Writer(o, va, size, 0)), payload := Bytes(s.world, o, va, size));
    AbsorbFills(t, false);
    if s.reader.Some? && WriteChunk(t) == size {
      NestingEnds(Absorb(t, false), true);
    }
  }
}
