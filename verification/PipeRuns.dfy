/** Pipe calls as steps of a whole run: a delivery is a sequence of stores by the kernel, so what Runs says of the
    memories of processes and of pages holds of runs with pipes in them. */
module PipeRuns {
  import opened Results
  import opened Words
  import opened Paths
  import opened DeepCopy
  import opened Processes
  import opened KernelHalves
  import opened Losses
  import opened Kernels
  import opened PipeSpec
  import opened Pipes
  import Runs

  /** The stores that put `data` at `va` of process `o`. */
  ghost function Writes(o: nat, va: nat, data: seq<Byte>): (es: seq<Runs.Step>)
    ensures |es| == |data|
  {
    if data == [] then [] else var n := |data| - 1; Writes(o, va, data[..n]) + [Runs.Wrote(o, va + n, data[n])]
  }

  lemma {:induction false} WritesLead(es: seq<Runs.Step>, w: World, o: nat, va: nat, data: seq<Byte>, size: nat)
    requires Runs.LeadsTo(es, w) && Runs.AllClear(w) && Buffer(w, o, va, size, true) && |data| <= size
    ensures Runs.LeadsTo(es + Writes(o, va, data), StoreAll(w, o, va, data)) && Runs.AllClear(StoreAll(w, o, va, data))
    decreases |data|
  {
    hide Runs.LeadsTo, Runs.AllClear, Buffer, Mapped, CanStore, Store, Runs.Next;
    if data == [] {
      assert es + [] == es;
    } else {
      var n := |data| - 1;
      WritesLead(es, w, o, va, data[..n], size);
      BufferEnd(w, o, va, size, true);
      OutMapped(w, o, va, data[..n], size, va + n);
      WriteStep(es + Writes(o, va, data[..n]), StoreAll(w, o, va, data[..n]), o, va + n, data[n]);
      assert es + Writes(o, va, data) == es + Writes(o, va, data[..n]) + [Runs.Wrote(o, va + n, data[n])];
    }
  }

  lemma WriteStep(es: seq<Runs.Step>, w: World, o: nat, va: nat, b: Byte)
    requires Runs.LeadsTo(es, w) && Runs.AllClear(w) && Mapped(w, o, va) && CanStore(w, o, va) && va < UMAX_ADDRESS
    ensures Runs.LeadsTo(es + [Runs.Wrote(o, va, b)], Store(w, o, va, b)) && Runs.AllClear(Store(w, o, va, b))
  {
    hide Runs.LeadsTo, Runs.AllClear, Mapped, CanStore, Store;
    Runs.LeadsToNext(es, w, Runs.Wrote(o, va, b));
    Runs.ClearNext(w, Runs.Wrote(o, va, b));
  }

  lemma ReadOutFits(s: PipeState, o: nat, va: nat, size: nat)
    ensures |ReadOut(s, o, va, size)| <= size
  {
  }

  lemma WriteOutFits(s: PipeState, o: nat, va: nat, size: nat)
    requires Sane(s) && size > 0
    ensures |WriteOut(s, o, va, size)| <= if s.reader.Some? then s.reader.value.size else 0
  {
    hide Bytes;
  }

  /** sys_read of a pipe in a run: the bytes delivered are stores of the reader. */
  method ReadPipe(c: Runs.Computer, p: Pipe, o: nat, va: nat, size: nat) returns (out: Outcome)
    requires c.Inv() && p.k == c.k && p.Valid() && p.Ready() && size > 0
    requires Live(c.k.procs, o) && Buffer(c.k.World(), o, va, size, true) && c.k.m.nfree >= 3
    modifies c, p, p.buf, c.k, c.k.m
    ensures c.Inv() && p.Valid() && p.Ready() && Sane(old(p.Abs())) && (p.Abs(), out) == SysRead(old(p.Abs()), o, va, size)
    ensures c.history == old(c.history) + Writes(o, va, ReadOut(old(p.Abs()), o, va, size))
    ensures c.wasted == old(c.wasted) + |WastedTo(old(c.k.m.St()), Some(Reader(o, va, size)), |ReadOut(old(p.Abs()), o, va, size)|)|
  {
    hide Kernel.Inv, Kernel.World, KernelIn, Ledger, Books, Runs.LeadsTo, Runs.AllClear, Buffer, Bytes, Pipe.Ring, PipeInv, SysRead,
      ReadOut, WastedTo, StoreAll;
    ghost var s, before := c.k.m.St(), p.Abs();
    ghost var data := ReadOut(before, o, va, size);
    ReadOutFits(before, o, va, size);
    WritesLead(c.history, c.k.World(), o, va, data, size);
    out := p.Read(o, va, size);
    ReadWorld(before, o, va, size);
    ghost var lost := WastedTo(s, Some(Reader(o, va, size)), |data|);
    Runs.KeptBooks(c.k, s, c.wasted, lost);
    c.history := c.history + Writes(o, va, data);
    c.wasted := c.wasted + |lost|;
  }

  /** sys_write to a pipe in a run: what reaches the waiting reader are stores of that reader. */
  method WritePipe(c: Runs.Computer, p: Pipe, o: nat, va: nat, size: nat) returns (out: Outcome)
    requires c.Inv() && p.k == c.k && p.Valid() && p.Ready() && size > 0
    requires Live(c.k.procs, o) && Buffer(c.k.World(), o, va, size, false)
    modifies c, p, p.buf, c.k, c.k.m
    ensures c.Inv() && p.Valid() && p.Ready() && Sane(old(p.Abs())) && (p.Abs(), out) == SysWrite(old(p.Abs()), o, va, size)
    ensures c.history == old(c.history) + DeliveryTo(old(p.Abs()).reader, WriteOut(old(p.Abs()), o, va, size))
    ensures c.wasted == old(c.wasted) + |WastedTo(old(c.k.m.St()), old(p.Abs()).reader, |WriteOut(old(p.Abs()), o, va, size)|)|
  {
    hide Kernel.Inv, Kernel.World, KernelIn, Ledger, Books, Runs.LeadsTo, Runs.AllClear, Buffer, Bytes, Pipe.Ring, PipeInv, SysWrite,
      WriteOut, WastedTo, StoreAll;
    ghost var s, before := c.k.m.St(), p.Abs();
    ghost var data := WriteOut(before, o, va, size);
    WriteOutFits(before, o, va, size);
    ghost var r := before.reader;
    if r.Some? {
      WritesLead(c.history, c.k.World(), r.value.o, r.value.va, data, r.value.size);
    }
    out := p.Write(o, va, size);
    WriteWorld(before, o, va, size);
    ghost var lost := WastedTo(s, r, |data|);
    Runs.KeptBooks(c.k, s, c.wasted, lost);
    assert r.None? ==> c.history + DeliveryTo(r, data) == c.history;
    c.history := c.history + DeliveryTo(r, data);
    c.wasted := c.wasted + |lost|;
  }

  ghost function DeliveryTo(r: Option<Reader>, data: seq<Byte>): (es: seq<Runs.Step>)
  {
    if r.None? then [] else Writes(r.value.o, r.value.va, data)
  }

  /** Closing a writing end is no step any memory shows. */
  method ClosePipe(c: Runs.Computer, p: Pipe)
    requires c.Inv() && p.k == c.k && p.Valid() && p.Ready() && p.wref > 0
    modifies p, c.k
    ensures c.Inv() && p.Valid() && p.Ready() && p.Abs() == SysClose(old(p.Abs()))
  {
    hide Kernel.Inv, Kernel.World, KernelIn, Books, Runs.LeadsTo, Runs.AllClear, Buffer, Bytes, Pipe.Ring, PipeInv;
    p.Close();
  }
}
