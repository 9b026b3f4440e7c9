/**
 * DMA mappings: the flat (identity) implementation of the DMA API and the
 * bookkeeping it does on a DMA-capable device.
 *
 * A device records its operations table, its addressable space mask and two
 * debugging counters: the number of outstanding mappings and the number of
 * outstanding coherent allocations.  The flat implementation never
 * translates: the device-side address of a mapping is the physical address
 * itself, and the only state it touches is the pair of counters (and only
 * when debug logging is compiled in).
 *
 * The effect of every operation on the device is given once, by `Step`, as a
 * function of the device state before the call; the methods of `DmaDevice`
 * are proved to perform exactly that step, and the lemmas at the end of the
 * module state what any sequence of steps does to the counters.
 */
module Dma {

  import opened Optional

  /** Largest value of an `unsigned int` (the type of the debug counters). */
  const UINT_MAX: int := 0xffff_ffff

  /** Arithmetic on `unsigned int` is modulo this number. */
  const UINT_MODULUS: int := 0x1_0000_0000

  /** An `unsigned int`. */
  type UInt = x: int | 0 <= x <= UINT_MAX

  /** A `physaddr_t`, at its widest (64-bit) configuration. */
  type PhysAddr = bv64

  /** A virtual address (`void *`); `NULL` is zero. */
  type VirtAddr = nat

  const NULL: VirtAddr := 0

  /** An opaque platform mapping token (`void *`); the flat API never reads or writes it. */
  type Token = nat

  /** The identity (pointer value) of a `struct dma_operations` table; zero is `NULL`. */
  type OperationsRef = nat

  /** Mapping flags, as the bit pattern of a C `int`. */
  type Flags = bv32

  /** Device will read data from host memory. */
  const DMA_TX: Flags := 0x01

  /** Device will write data to host memory. */
  const DMA_RX: Flags := 0x02

  /** Device will both read data from and write data to host memory. */
  const DMA_BI: Flags := DMA_TX | DMA_RX

  /** The mask `~((physaddr_t) 0)` that `dma_set_mask_64bit` requests. */
  const MASK_64BIT: PhysAddr := !0

  /** The three direction flags are distinct and bidirectional is the union of the other two. */
  lemma DirectionFlags()
    ensures DMA_BI == 3
    ensures DMA_TX & DMA_RX == 0
    ensures DMA_BI & DMA_TX == DMA_TX && DMA_BI & DMA_RX == DMA_RX
  {
  }

  /** Every physical address lies within the 64-bit mask. */
  lemma Mask64BitCoversAll(addr: PhysAddr)
    ensures addr & !MASK_64BIT == 0
  {
  }

  /** `counter++` on an `unsigned int`. */
  function Increment(c: UInt): (r: UInt)
    ensures r == (c + 1) % UINT_MODULUS
  {
    if c == UINT_MAX then 0 else c + 1
  }

  /** `counter--` on an `unsigned int`. */
  function Decrement(c: UInt): (r: UInt)
    ensures r == (c - 1) % UINT_MODULUS
  {
    if c == 0 then UINT_MAX else c - 1
  }

  /** The fields of a `struct dma_device`. */
  datatype DeviceState = DeviceState(op: OperationsRef, mask: PhysAddr, mapped: UInt, allocations: UInt)

  /** One call into the flat DMA API, with its arguments. */
  datatype Call =
    | Map(addr: PhysAddr, len: nat, flags: Flags)
    | Unmap
      /** `buffer` is what the physical-memory allocator returned (possibly `NULL`). */
    | Alloc(len: nat, align: nat, buffer: VirtAddr)
    | Free(buffer: VirtAddr, len: nat)
    | SetMask(mask: PhysAddr)
    | Init(op: OperationsRef)

  /** The device state after one flat call, given whether debug logging is compiled in. */
  function Step(dbgLog: bool, s: DeviceState, c: Call): (r: DeviceState)
    ensures r.mask == s.mask
    ensures !c.Init? ==> r.op == s.op
    ensures !dbgLog ==> r.mapped == s.mapped && r.allocations == s.allocations
    ensures !(c.Map? || c.Unmap?) ==> r.mapped == s.mapped
    ensures !(IsSuccessfulAlloc(c) || c.Free?) ==> r.allocations == s.allocations
  {
    match c
    case Map(_, _, _) => if dbgLog then s.(mapped := Increment(s.mapped)) else s
    case Unmap => if dbgLog then s.(mapped := Decrement(s.mapped)) else s
    case Alloc(_, _, buffer) =>
      if dbgLog && buffer != NULL then s.(allocations := Increment(s.allocations)) else s
    case Free(_, _) => if dbgLog then s.(allocations := Decrement(s.allocations)) else s
    case SetMask(_) => s
    case Init(op) => s.(op := op)
  }

  /** The device state after a sequence of flat calls, in order. */
  function Run(dbgLog: bool, s: DeviceState, calls: seq<Call>): DeviceState
    decreases |calls|
  {
    if calls == [] then s else Run(dbgLog, Step(dbgLog, s, calls[0]), calls[1..])
  }

  /** The number of calls in `calls` that satisfy `p`. */
  function Count(calls: seq<Call>, p: Call -> bool): nat
    decreases |calls|
  {
    if calls == [] then 0 else (if p(calls[0]) then 1 else 0) + Count(calls[1..], p)
  }

  predicate IsMap(c: Call) { c.Map? }

  predicate IsUnmap(c: Call) { c.Unmap? }

  /** An allocation that the allocator satisfied. */
  predicate IsSuccessfulAlloc(c: Call) { c.Alloc? && c.buffer != NULL }

  predicate IsFree(c: Call) { c.Free? }

  /** The `Init` call that decides the operations table after `calls`, if any. */
  function LastInit(calls: seq<Call>): (r: Option<OperationsRef>)
    ensures r.Some? <==> exists i :: 0 <= i < |calls| && calls[i].Init?
    ensures r.Some? ==>
              exists i :: 0 <= i < |calls| && calls[i].Init? && calls[i].op == r.value &&
                          forall j :: i < j < |calls| ==> !calls[j].Init?
    decreases |calls|
  {
    if calls == [] then None
    else if calls[|calls| - 1].Init? then Some(calls[|calls| - 1].op)
    else LastInit(calls[..|calls| - 1])
  }

  /** Flat map: when debug logging is on, `mapped` goes up by one (modulo 2^32); nothing else changes. */
  lemma FlatMapEffect(dbgLog: bool, s: DeviceState, addr: PhysAddr, len: nat, flags: Flags)
    ensures Step(dbgLog, s, Map(addr, len, flags))
         == s.(mapped := if dbgLog then (s.mapped + 1) % UINT_MODULUS else s.mapped)
  {
  }

  /** Flat alloc: `allocations` goes up by one exactly when debug logging is on and the allocator returned a buffer. */
  lemma FlatAllocEffect(dbgLog: bool, s: DeviceState, len: nat, align: nat, buffer: VirtAddr)
    ensures Step(dbgLog, s, Alloc(len, align, buffer))
         == s.(allocations := if dbgLog && buffer != NULL then (s.allocations + 1) % UINT_MODULUS else s.allocations)
    ensures buffer == NULL ==> Step(dbgLog, s, Alloc(len, align, buffer)) == s
  {
  }

  /** Flat free: when debug logging is on, `allocations` goes down by one (modulo 2^32); nothing else changes. */
  lemma FlatFreeEffect(dbgLog: bool, s: DeviceState, buffer: VirtAddr, len: nat)
    ensures Step(dbgLog, s, Free(buffer, len))
         == s.(allocations := if dbgLog then (s.allocations - 1) % UINT_MODULUS else s.allocations)
  {
  }

  /** A map followed by an unmap leaves the whole device as it was. */
  lemma MapThenUnmap(dbgLog: bool, s: DeviceState, addr: PhysAddr, len: nat, flags: Flags)
    ensures Run(dbgLog, s, [Map(addr, len, flags), Unmap]) == s
  {
    var calls := [Map(addr, len, flags), Unmap];
    assert calls[1..] == [Unmap] && calls[1..][1..] == [];
    var s1 := Step(dbgLog, s, calls[0]);
    assert Run(dbgLog, s, calls) == Run(dbgLog, s1, [Unmap]) == Step(dbgLog, s1, Unmap);
  }

  /** A successful allocation followed by a free leaves the whole device as it was. */
  lemma AllocThenFree(dbgLog: bool, s: DeviceState, len: nat, align: nat, buffer: VirtAddr)
    requires buffer != NULL
    ensures Run(dbgLog, s, [Alloc(len, align, buffer), Free(buffer, len)]) == s
  {
    var calls := [Alloc(len, align, buffer), Free(buffer, len)];
    assert calls[1..] == [Free(buffer, len)] && calls[1..][1..] == [];
    var s1 := Step(dbgLog, s, calls[0]);
    assert Run(dbgLog, s, calls) == Run(dbgLog, s1, [Free(buffer, len)]) == Step(dbgLog, s1, Free(buffer, len));
  }

  /** Shifting by one before reducing modulo 2^32 does not change the final residue. */
  lemma ModShift(a: int, d: int, k: int)
    ensures ((a + d) % UINT_MODULUS + k) % UINT_MODULUS == (a + d + k) % UINT_MODULUS
  {
  }

  /**
   * After any sequence of flat calls, each debug counter equals its starting
   * value plus the number of calls that raise it minus the number that lower
   * it, modulo 2^32 (or is unchanged without debug logging); the mask never
   * changes; the operations table is the one the last `Init` installed.
   */
  lemma {:induction false} RunCounters(dbgLog: bool, s: DeviceState, calls: seq<Call>)
    ensures Run(dbgLog, s, calls).mask == s.mask
    ensures Run(dbgLog, s, calls).mapped
         == if dbgLog then (s.mapped + Count(calls, IsMap) - Count(calls, IsUnmap)) % UINT_MODULUS
            else s.mapped
    ensures Run(dbgLog, s, calls).allocations
         == if dbgLog then (s.allocations + Count(calls, IsSuccessfulAlloc) - Count(calls, IsFree)) % UINT_MODULUS
            else s.allocations
    decreases |calls|
  {
    if calls != [] {
      var c, rest := calls[0], calls[1..];
      var s' := Step(dbgLog, s, c);
      RunCounters(dbgLog, s', rest);
      if dbgLog {
        var dm := (if IsMap(c) then 1 else 0) - (if IsUnmap(c) then 1 else 0);
        var da := (if IsSuccessfulAlloc(c) then 1 else 0) - (if IsFree(c) then 1 else 0);
        assert s'.mapped == (s.mapped + dm) % UINT_MODULUS;
        assert s'.allocations == (s.allocations + da) % UINT_MODULUS;
        ModShift(s.mapped, dm, Count(rest, IsMap) - Count(rest, IsUnmap));
        ModShift(s.allocations, da, Count(rest, IsSuccessfulAlloc) - Count(rest, IsFree));
      }
    }
  }

  /** The operations table after a sequence of calls is the one the last `Init` installed, or the original. */
  lemma {:induction false} RunOperations(dbgLog: bool, s: DeviceState, calls: seq<Call>)
    ensures Run(dbgLog, s, calls).op == match LastInit(calls) case Some(op) => op case None => s.op
    decreases |calls|
  {
    if calls != [] {
      var last := calls[|calls| - 1];
      var front := calls[..|calls| - 1];
      assert calls == front + [last];
      RunAppend(dbgLog, s, front, last);
      RunOperations(dbgLog, s, front);
    }
  }

  /** Running a sequence and then one more call is running the longer sequence. */
  lemma {:induction false} RunAppend(dbgLog: bool, s: DeviceState, calls: seq<Call>, c: Call)
    ensures Run(dbgLog, s, calls + [c]) == Step(dbgLog, Run(dbgLog, s, calls), c)
    decreases |calls|
  {
    if calls == [] {
      assert ([] + [c])[1..] == [];
    } else {
      assert (calls + [c])[1..] == calls[1..] + [c];
      RunAppend(dbgLog, Step(dbgLog, s, calls[0]), calls[1..], c);
    }
  }

  /**
   * With debug logging, a sequence with as many unmaps as maps and as many
   * frees as successful allocations leaves both counters where they started.
   */
  lemma BalancedRunRestoresCounters(dbgLog: bool, s: DeviceState, calls: seq<Call>)
    requires Count(calls, IsMap) == Count(calls, IsUnmap)
    requires Count(calls, IsSuccessfulAlloc) == Count(calls, IsFree)
    ensures Run(dbgLog, s, calls).mapped == s.mapped
    ensures Run(dbgLog, s, calls).allocations == s.allocations
    ensures Run(dbgLog, s, calls).mask == s.mask
  {
    RunCounters(dbgLog, s, calls);
  }

  /**
   * As long as the net count stays within `unsigned int`, the counters are
   * exactly the number of outstanding mappings and allocations added to
   * their starting values.
   */
  lemma CountersTrackOutstanding(s: DeviceState, calls: seq<Call>)
    requires 0 <= s.mapped + Count(calls, IsMap) - Count(calls, IsUnmap) <= UINT_MAX
    requires 0 <= s.allocations + Count(calls, IsSuccessfulAlloc) - Count(calls, IsFree) <= UINT_MAX
    ensures Run(true, s, calls).mapped == s.mapped + Count(calls, IsMap) - Count(calls, IsUnmap)
    ensures Run(true, s, calls).allocations
         == s.allocations + Count(calls, IsSuccessfulAlloc) - Count(calls, IsFree)
  {
    RunCounters(true, s, calls);
  }

  /** An I/O buffer: the address of its data and `iob_len`, the length of that data. */
  datatype IoBuffer = IoBuffer(data: VirtAddr, len: nat)

  /** A `struct dma_mapping`. */
  class DmaMapping {
    /** Device-side address. */
    var addr: PhysAddr
    /** Platform mapping token. */
    var token: Token

    /** A zero-filled mapping record. */
    constructor ()
      ensures addr == 0 && token == 0
    {
      addr, token := 0, 0;
    }
  }

  /**
   * A `struct dma_device` together with the flat DMA API acting on it.
   *
   * The ghost field `calls` logs every call made on the device, with its
   * arguments; `Valid` says the fields are what running that log from a
   * zero-filled device gives, so the lemmas about `Run` apply to the device.
   */
  class DmaDevice {
    /** DMA operations. */
    var op: OperationsRef
    /** Addressable space mask. */
    var mask: PhysAddr
    /** Total number of mappings (for debugging). */
    var mapped: UInt
    /** Total number of allocations (for debugging). */
    var allocations: UInt
    /** Whether `DBG_LOG` is enabled at every call site of this device. */
    const dbgLog: bool
    /** The calls made on this device so far, in order. */
    ghost var calls: seq<Call>

    ghost predicate Valid()
      reads this
    {
      State() == Run(dbgLog, DeviceState(0, 0, 0, 0), calls)
    }

    /** A zero-filled device. */
    constructor (dbgLog: bool)
      ensures Valid()
      ensures this.dbgLog == dbgLog && calls == []
      ensures State() == DeviceState(0, 0, 0, 0)
    {
      this.dbgLog := dbgLog;
      op, mask, mapped, allocations := 0, 0, 0, 0;
      calls := [];
    }

    function State(): DeviceState
      reads this
    {
      DeviceState(op, mask, mapped, allocations)
    }

    /** Records `c` in the log, given that the fields already show its effect. */
    ghost method Record(c: Call)
      requires State() == Step(dbgLog, Run(dbgLog, DeviceState(0, 0, 0, 0), calls), c)
      modifies this`calls
      ensures Valid() && calls == old(calls) + [c]
    {
      RunAppend(dbgLog, DeviceState(0, 0, 0, 0), calls, c);
      calls := calls + [c];
    }

    /** Flat `dma_map`: the device address is the physical address; always succeeds. */
    method FlatMap(addr: PhysAddr, len: nat, flags: Flags, mapping: DmaMapping) returns (rc: int)
      requires Valid()
      modifies this`mapped, this`calls, mapping`addr
      ensures Valid() && calls == old(calls) + [Map(addr, len, flags)]
      ensures rc == 0
      ensures mapping.addr == addr
      ensures State() == Step(dbgLog, old(State()), Map(addr, len, flags))
    {
      mapping.addr := addr;
      if dbgLog {
        mapped := Increment(mapped);
      }
      rc := 0;
      Record(Map(addr, len, flags));
    }

    /** Flat `dma_unmap`. */
    method FlatUnmap(mapping: DmaMapping)
      requires Valid()
      modifies this`mapped, this`calls
      ensures Valid() && calls == old(calls) + [Unmap]
      ensures State() == Step(dbgLog, old(State()), Unmap)
    {
      if dbgLog {
        mapped := Decrement(mapped);
      }
      Record(Unmap);
    }

    /**
     * Flat `dma_alloc`: `mallocPhys` is the physical-memory allocator (it
     * returns `NULL` on failure) and `virtToPhys` the address translation.
     * The mapping's address is filled in even when the allocator fails.
     */
    method FlatAlloc(len: nat, align: nat, mapping: DmaMapping,
                     mallocPhys: (nat, nat) -> VirtAddr, virtToPhys: VirtAddr -> PhysAddr)
      returns (addr: VirtAddr)
      requires Valid()
      modifies this`allocations, this`calls, mapping`addr
      ensures Valid() && calls == old(calls) + [Alloc(len, align, addr)]
      ensures addr == mallocPhys(len, align)
      ensures mapping.addr == virtToPhys(addr)
      ensures State() == Step(dbgLog, old(State()), Alloc(len, align, addr))
    {
      addr := mallocPhys(len, align);
      mapping.addr := virtToPhys(addr);
      if dbgLog && addr != NULL {
        allocations := Increment(allocations);
      }
      Record(Alloc(len, align, addr));
    }

    /** Flat `dma_free`; releasing the buffer to the allocator is outside the model. */
    method FlatFree(addr: VirtAddr, len: nat, mapping: DmaMapping)
      requires Valid()
      modifies this`allocations, this`calls
      ensures Valid() && calls == old(calls) + [Free(addr, len)]
      ensures State() == Step(dbgLog, old(State()), Free(addr, len))
    {
      if dbgLog {
        allocations := Decrement(allocations);
      }
      Record(Free(addr, len));
    }

    /** Flat `dma_set_mask`: there is nothing to reconfigure. */
    method FlatSetMask(mask: PhysAddr)
      requires Valid()
      modifies this`calls
      ensures Valid() && calls == old(calls) + [SetMask(mask)]
      ensures State() == Step(dbgLog, old(State()), SetMask(mask))
    {
      Record(SetMask(mask));
    }

    /** `dma_init`: install an operations table. */
    method Init(op: OperationsRef)
      requires Valid()
      modifies this`op, this`calls
      ensures Valid() && calls == old(calls) + [Call.Init(op)]
      ensures State() == Step(dbgLog, old(State()), Call.Init(op))
    {
      this.op := op;
      Record(Call.Init(op));
    }

    /** `dma_set_mask_64bit`: request the all-ones mask. */
    method SetMask64Bit()
      requires Valid()
      modifies this`calls
      ensures Valid() && calls == old(calls) + [SetMask(MASK_64BIT)]
      ensures State() == Step(dbgLog, old(State()), SetMask(MASK_64BIT))
    {
      FlatSetMask(MASK_64BIT);
    }

    /** `dma_map_tx_iob`: map the data of an I/O buffer for transmission. */
    method MapTxIob(iobuf: IoBuffer, mapping: DmaMapping, virtToPhys: VirtAddr -> PhysAddr)
      returns (rc: int)
      requires Valid()
      modifies this`mapped, this`calls, mapping`addr
      ensures Valid() && calls == old(calls) + [Map(virtToPhys(iobuf.data), iobuf.len, DMA_TX)]
      ensures rc == 0
      ensures mapping.addr == virtToPhys(iobuf.data)
      ensures State() == Step(dbgLog, old(State()), Map(virtToPhys(iobuf.data), iobuf.len, DMA_TX))
    {
      rc := FlatMap(virtToPhys(iobuf.data), iobuf.len, DMA_TX, mapping);
    }

    /** A client: mapping a buffer and unmapping it again leaves the device as it was. */
    method MapAndUnmap(addr: PhysAddr, len: nat, flags: Flags, mapping: DmaMapping)
      requires Valid()
      modifies this`mapped, this`calls, mapping`addr
      ensures Valid() && calls == old(calls) + [Map(addr, len, flags), Unmap]
      ensures mapping.addr == addr
      ensures State() == old(State())
    {
      var rc := FlatMap(addr, len, flags, mapping);
      FlatUnmap(mapping);
      MapThenUnmap(dbgLog, old(State()), addr, len, flags);
    }

    /** A client: a successful allocation freed again leaves the device as it was. */
    method AllocAndFree(len: nat, align: nat, mapping: DmaMapping,
                        mallocPhys: (nat, nat) -> VirtAddr, virtToPhys: VirtAddr -> PhysAddr)
      returns (addr: VirtAddr)
      requires Valid()
      modifies this`allocations, this`calls, mapping`addr
      ensures Valid()
      ensures addr == mallocPhys(len, align)
      ensures calls == old(calls) + if addr != NULL then [Alloc(len, align, addr), Free(addr, len)]
                                    else [Alloc(len, align, addr)]
      ensures State() == old(State())
    {
      addr := FlatAlloc(len, align, mapping, mallocPhys, virtToPhys);
      if addr != NULL {
        FlatFree(addr, len, mapping);
        AllocThenFree(dbgLog, old(State()), len, align, addr);
      }
    }
  }

  /**
   * A client over a device's whole life: once every mapping and successful
   * allocation made since creation has been released, both counters are back
   * at zero.
   */
  lemma BalancedDeviceIsIdle(dev: DmaDevice)
    requires dev.Valid()
    requires Count(dev.calls, IsMap) == Count(dev.calls, IsUnmap)
    requires Count(dev.calls, IsSuccessfulAlloc) == Count(dev.calls, IsFree)
    ensures dev.mapped == 0 && dev.allocations == 0 && dev.mask == 0
  {
    BalancedRunRestoresCounters(dev.dbgLog, DeviceState(0, 0, 0, 0), dev.calls);
  }
}
