# iPXE flat DMA mappings and error descriptions, in Dafny

This project models two small parts of iPXE.

**Flat DMA API** (`dma.dfy`, module `Dma`). A DMA-capable device (`struct dma_device`) holds four things:

- a pointer to its operations table;
- an addressable space mask;
- two debugging counters, `mapped` and `allocated`.

The flat implementation of the DMA API does no address translation. Mapping a buffer always succeeds, and the device-side address is the physical address itself. Allocating a coherent buffer asks the physical-memory allocator. Setting the mask does nothing. When debug logging is compiled in, map/unmap and successful alloc/free move the counters up and down.

The device and the mapping record are classes whose fields the methods update in place. The effect of each call on the device is also given as a pure function, `Step`, over a value `DeviceState`. Every method is proved to perform exactly its step and to record the call, with its arguments, in a ghost log. `Run` folds `Step` over a sequence of calls, and the lemmas about `Run` say what any sequence of calls does to the counters, the mask and the operations table.

**Error descriptions** (`strerror.dfy`, module `StrError`):

- `find_error` finds the first entry of the error table that agrees with the query on the bits of a mask.
- `find_closest_error` tries an exact match first, then a match on the generic POSIX part.
- `strerror` turns a negative return code into an error number and looks up the closest description. It then writes "text (0x…)" or "Error 0x…" into a 64-byte buffer.

The table is a sequence of entries. The scan is a method with a loop, proved against the recursive specification function `FirstMatch`. `strerror` is a method proved against the function `Message`. The `%#08x` conversion is rendered as ISO C defines it:

- zero becomes `00000000`;
- any other value becomes `0x` and its lower-case digits, zero-padded to a field of 8 characters.

That rendering is proved to read back as the number it came from. The firmware's own `snprintf` is not part of this model.

`option.dfy` (module `Optional`) holds the `Option` type both modules use.

Modelling choices:

- `physaddr_t` is modelled at 64 bits, as `bv64`.
- The counters are `unsigned int`, so they are modelled at 32 bits with explicit wrap-around. An unmap or free with a counter at zero therefore wraps to `0xffffffff`, as it does in C. No precondition forbids it.
- The C field `allocated` is named `allocations` in the model, because `allocated` is a Dafny keyword.
- `DBG_LOG` is a constant of each device, `dbgLog`: every call site of one device is taken to be compiled with the same `DBG_LOG` value. The model covers both values, but not a device whose map and unmap are compiled with different values.
- The device keeps a ghost log, `calls`, of every call made on it with its arguments. `Valid` says the fields are what running that log from a zero-filled device gives.
- The physical-memory allocator `malloc_phys` and the translation `virt_to_phys` are function parameters. The allocator may return `NULL` (zero).
- The values of the POSIX-style error numbers in `common_errors` come from `errno.h`, which is not part of this model. `CommonErrors` therefore takes them as a parameter; only the first entry, `{ 0, "No error" }`, is fixed.

## Model

| member | source | states |
|---|---|---|
| `Dma.DirectionFlags` | src/include/ipxe/dma.h:102-109 | `DMA_BI` is 3; `DMA_TX` and `DMA_RX` share no bit, and `DMA_BI` contains both |
| `Dma.Mask64BitCoversAll` | src/include/ipxe/dma.h:309-314 | every 64-bit physical address lies within the all-ones mask that `dma_set_mask_64bit` requests |
| `Dma.Increment` | src/include/ipxe/dma.h:158-160 | `counter++` on an `unsigned int` is addition of one modulo 2^32 |
| `Dma.Decrement` | src/include/ipxe/dma.h:175-177 | `counter--` on an `unsigned int` is subtraction of one modulo 2^32 |
| `Dma.LastInit` | src/include/ipxe/dma.h:297-302 | the result exists exactly when some call is a `dma_init`, and is then the table of the last such call |
| `Dma.Step` | src/include/ipxe/dma.h:150-237 | one flat call never changes the mask; only `dma_init` changes the operations table; without debug logging no counter moves; only map and unmap move `mapped`, and only a successful alloc or a free moves `allocated` |
| `Dma.FlatMapEffect` | src/include/ipxe/dma.h:150-163 | a flat map raises `mapped` by one (mod 2^32) exactly when debug logging is on; `op`, `mask` and `allocated` are untouched |
| `Dma.FlatAllocEffect` | src/include/ipxe/dma.h:189-203 | a flat alloc raises `allocated` by one only when debug logging is on and the allocator returned non-NULL; a NULL result leaves the device unchanged |
| `Dma.FlatFreeEffect` | src/include/ipxe/dma.h:213-224 | a flat free lowers `allocated` by one (mod 2^32) when debug logging is on and touches no other field |
| `Dma.MapThenUnmap` | src/include/ipxe/dma.h:150-178 | a map followed by an unmap leaves the whole device state as it was, including at the 2^32 wrap |
| `Dma.AllocThenFree` | src/include/ipxe/dma.h:189-224 | a successful alloc followed by a free leaves the whole device state as it was |
| `Dma.RunCounters` | src/include/ipxe/dma.h:40-49 | after any sequence of flat calls, `mapped` is its start value plus maps minus unmaps, and `allocated` its start value plus successful allocs minus frees, both mod 2^32 (unchanged without debug logging); the mask never changes |
| `Dma.RunOperations` | src/include/ipxe/dma.h:297-302 | after any sequence of calls, the operations table is the one the last `dma_init` installed, or the original if there was none |
| `Dma.BalancedRunRestoresCounters` | src/include/ipxe/dma.h:45-48 | a sequence with as many unmaps as maps and as many frees as successful allocs leaves both counters and the mask at their starting values |
| `Dma.CountersTrackOutstanding` | src/include/ipxe/dma.h:45-48 | when the net count stays within `unsigned int`, each counter is exactly its start value plus the number of outstanding mappings or allocations |
| `Dma.DmaMapping.constructor` | src/include/ipxe/dma.h:32-37 | a mapping record is a device-side address and a token, both zero when fresh |
| `Dma.DmaDevice.constructor` | src/include/ipxe/dma.h:40-49 | a zero-filled device: no operations table, empty mask, both counters zero |
| `Dma.DmaDevice.FlatMap` | src/include/ipxe/dma.h:150-163 | logs the call with its address, length and flags; returns 0, sets the mapping's address to the input address, leaves its token alone, and performs the map step on the device; length and flags affect nothing but the log |
| `Dma.DmaDevice.FlatUnmap` | src/include/ipxe/dma.h:171-178 | performs the unmap step: only `mapped` may change |
| `Dma.DmaDevice.FlatAlloc` | src/include/ipxe/dma.h:189-203 | returns what the allocator returned, sets the mapping's address to the physical address of that buffer (even a NULL one), and performs the alloc step |
| `Dma.DmaDevice.FlatFree` | src/include/ipxe/dma.h:213-224 | performs the free step: only `allocated` may change |
| `Dma.DmaDevice.FlatSetMask` | src/include/ipxe/dma.h:232-237 | logs the call with its mask and leaves every device field unchanged |
| `Dma.DmaDevice.Init` | src/include/ipxe/dma.h:297-302 | sets the operations table and changes nothing else |
| `Dma.DmaDevice.SetMask64Bit` | src/include/ipxe/dma.h:309-314 | logs exactly one set-mask call, whose argument is the all-ones 64-bit mask, and leaves the device fields unchanged |
| `Dma.DmaDevice.MapTxIob` | src/include/ipxe/dma.h:324-331 | logs exactly one map call, of the physical address of the I/O buffer's data, its length and flags `DMA_TX`; returns 0 and performs that map step |
| `Dma.DmaDevice.MapAndUnmap` | src/include/ipxe/dma.h:150-178 | a caller that maps and then unmaps a buffer gets the input address as the device address and finds the device state unchanged afterwards |
| `Dma.BalancedDeviceIsIdle` | src/include/ipxe/dma.h:45-48 | a valid device on which every mapping and successful allocation has been released has both counters at zero |
| `Dma.DmaDevice.AllocAndFree` | src/include/ipxe/dma.h:189-224 | a caller that allocates and frees a buffer again finds the device state unchanged afterwards |
| `StrError.FirstMatchFrom` | src/hci/strerror.c:28-37 | the result is the first index at or after the start whose entry agrees with the query on the mask bits; if there is none, no entry from the start on agrees |
| `StrError.FindError` | src/hci/strerror.c:28-37 | the in-order scan with early return yields exactly the first matching entry, or none |
| `StrError.FirstMatchIsFirst` | src/hci/strerror.c:31-36 | a found entry matches and no earlier one does; no result if and only if no entry of the table matches |
| `StrError.FindClosestError` | src/hci/strerror.c:47-61 | the method returns the exact match under `0x7fffffff` if there is one, else the match under `0x4f0000ff` |
| `StrError.ExactImpliesPosix` | src/hci/strerror.c:50-58 | agreement under `0x7fffffff` implies agreement under `0x4f0000ff` |
| `StrError.ClosestPrefersExact` | src/hci/strerror.c:50-60 | when some entry matches exactly, the result is the first exact match; only when none does is the generic POSIX match used |
| `StrError.ClosestAgreesOnPosixBits` | src/hci/strerror.c:47-61 | any entry returned agrees with the query at least on the bits of `0x4f0000ff` |
| `StrError.ClosestNoneMeansNoPosixMatch` | src/hci/strerror.c:57-60 | no description is found if and only if no entry agrees with the query on the generic POSIX bits |
| `StrError.HexDigitsRoundTrip` | src/hci/strerror.c:89-92 | the hexadecimal digits of a number are valid digits, have no leading zero and read back as the number |
| `StrError.FormatHexRoundTrip` | src/hci/strerror.c:89-92 | `%#08x` of a 32-bit value takes 8 to 10 characters, has the `0x` prefix exactly when the value is non-zero, and reads back as the value |
| `StrError.Snprintf` | src/hci/strerror.c:77-92 | the text kept in the 64-byte buffer is a prefix of what was formatted: all of it when it fits, otherwise exactly its first 63 characters |
| `StrError.Normalize` | src/hci/strerror.c:80-82 | a negative return code becomes its positive error number; others stay as they are |
| `StrError.StrError` | src/hci/strerror.c:76-96 | the method returns exactly the message `Message` describes for the normalised number |
| `StrError.SignDoesNotMatter` | src/hci/strerror.c:80-85 | `strerror(-n)` and `strerror(n)` give the same message, hence the same entry and the same number |
| `StrError.MessageShape` | src/hci/strerror.c:87-93 | the message is at most 63 characters. With a description it is a prefix of "text (number)", and all of it when the text is at most 50 characters. Without one it is exactly "Error " and the number, which reads back from the message |
| `StrError.Message` | src/hci/strerror.c:76-96 | the message is at most 63 characters; with a description it is a prefix of "text (number)"; without one it starts with "Error " |
| `StrError.CommonErrors` | src/hci/strerror.c:103-120 | the sixteen entries of `common_errors` in source order: the first is number 0, "No error"; the other numbers are the `ErrnoCodes` parameters; every description is 1 to 50 characters long |
| `StrError.CommonMessagesAreComplete` | src/hci/strerror.c:87-120 | with `common_errors` as the table, a message that names a description is never cut: it is the description, " (", the number and ")" in full |
| `StrError.ZeroIsNoError` | src/hci/strerror.c:103-104 | with `common_errors` as the table, error number 0 finds the first entry and the message is "No error (00000000)" |

## Left out

- The non-flat entry points `dma_map`, `dma_unmap`, `dma_alloc`, `dma_free` and `dma_set_mask` (runtime dispatch through the operations table) are left out. Only their declarations exist, so there is no behaviour to model. The operations table is modelled only as the identity of the pointer that `dma_init` installs. The methods here are the flat instance.
- `dma_alloc_rx_iob` is left out. It is only declared.
- The API-selection macros (`DMAAPI_PREFIX_*`, `DMAAPI_INLINE`, `PROVIDE_DMAAPI*`) are left out. They choose names at build time and have no behaviour.
- `malloc_phys` and `virt_to_phys` are parameters of the methods that use them. The allocator is a function of the length and alignment, so two calls with the same arguments are modelled as giving the same answer. The allocator's own heap state is not modelled.
- `free_phys` is not modelled. Returning the buffer to the allocator happens outside this model.
- `iob_len` and the rest of `struct io_buffer` are not modelled. `iobuf.h` is not part of this model, and an I/O buffer is reduced to its data address and its length.
- Dma.DmaDevice.FlatMap: the device address is not checked against the mask. The flat code does not check it either. `Mask64BitCoversAll` states only that the all-ones mask admits every address.
- `physaddr_t` is modelled at 64 bits only. 32-bit builds are not covered.
- The linker-table mechanism (`for_each_table_entry`, `__errortab`) is left out. The error table is a sequence given as input. When several tables are linked, their order is not modelled.
- `StrError.ZeroIsNoError` assumes `common_errors` is the whole table.
- StrError.FormatHex: `%#08x` is rendered as ISO C defines it. The width includes the `0x`, and zero gets no `0x`. The firmware's own formatter is not part of this model and may render differently, for example `0x00000000` for zero; `ZeroIsNoError`'s exact text depends on this. The 63-character bound and the 50-character threshold in `MessageShape` hold for either rendering, because each is at most 10 characters.
- The numeric values of `EACCES` … `ETIMEDOUT` are parameters of `CommonErrors`, because `errno.h` is not part of this model.
- StrError.StrError: requires the error number not to be `INT_MIN`. Negating `INT_MIN` overflows a C `int`, and the model does not say what such a call prints.
- StrError.Message: same `INT_MIN` exclusion as `StrError`.
- The lifetime of the static buffer is not modelled. The C text says the returned pointer is valid only until the next call; the model returns a fresh string instead.
- Characters are modelled as Dafny `char`. The byte encoding of the description texts is not modelled, so the 63-character bound counts characters.
