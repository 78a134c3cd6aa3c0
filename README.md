# Ring buffer and byte units of crusty_handmade

This project models two pieces of the crusty_handmade game:

- the fixed-capacity circular FIFO `RingBuffer<T>`. The game loop (producer) uses it to hand audio samples to the audio callback (consumer);
- the byte-size unit conversions `kilobytes`, `megabytes`, `gigabytes` and `terrabytes` of the utility crate.

It proves properties of both.

`ring_buffer.dfy` (module `RingBuffers`) holds the buffer as a class:

- fields `capacity`, `buffer` (an `array`), `head`, `tail` and `len`;
- the invariant `Valid()`;
- a ghost view `Contents()`: the unread elements, oldest first, read circularly from `head`.

`write_buffers` and `read` return the two slices they hand out as `Span`s (start, length). The methods state:

- the clamped count;
- the split of the claimed slots into a run up to the physical end and a run from slot 0;
- the new cursors;
- the new contents.

Separate lemmas show:

- the source's branches (`tail >= head` / `tail < head`, `tail <= head` / `tail > head`) pick exactly that split;
- its `%` arithmetic matches;
- the slices never cover unread data.

`WriteFrom` models the producer's step: claim, then copy the samples into the two slices. Its contract is that the contents grow by exactly the written samples. `RingBufferTests.WriteThenRead` composes it with a read and proves the buffer is first in, first out for every state and request.

`ring_buffer_tests.dfy` (module `RingBufferTests`) turns the source's unit tests into methods. Each builds the test's state, runs the operations and returns what the test observes. Its postcondition pins the values the test asserts.

`units.dfy` (module `Units`) gives each conversion with the `usize` overflow bound as a precondition. It proves the chain `x * 1024^k`, the value at 0 and monotonicity, each over the conversion's own domain, and the largest arguments that fit.

## Model

| member | source | states |
|---|---|---|
| Units.Kilobytes | utility/src/lib.rs:5-7 | the result is a whole number of 1024-byte units, exactly `x` of them, and fits in `usize` |
| Units.Megabytes | utility/src/lib.rs:10-12 | the result is exactly `x` units of 1024^2 bytes and fits in `usize` |
| Units.Gigabytes | utility/src/lib.rs:15-17 | the result is exactly `x` units of 1024^3 bytes and fits in `usize` |
| Units.Terrabytes | utility/src/lib.rs:20-22 | the result is exactly `x` units of 1024^4 bytes and fits in `usize` |
| Units.ConversionChain | utility/src/lib.rs:5-22 | wherever a conversion is defined (its own product fits in `usize`) it is the previous one times 1024 and equals `x * 1024^k` |
| Units.ConversionsMonotone | utility/src/lib.rs:5-22 | every conversion maps 0 to 0 and is monotone in its argument over its own domain |
| Units.LargestTerrabytes | utility/src/lib.rs:20-22 | `terrabytes` is defined exactly up to `2^24 - 1`: it yields `(2^24 - 1) * 1024^4` there, and the next argument overflows |
| Units.LargestKilobytes | utility/src/lib.rs:5-7 | `kilobytes` is defined exactly up to `2^54 - 1`: it yields `(2^54 - 1) * 1024` there, and the next argument overflows |
| RingBuffers.Slot | src/utility/ring_buffer.rs:69-70 | stepping at most one lap from a slot stays below `capacity` |
| RingBuffers.SlotMod | src/utility/ring_buffer.rs:69-70 | the one-lap slot step is the source's `(start + k) % capacity` |
| RingBuffers.Window | src/utility/ring_buffer.rs:7-15 | the `n` values read circularly from a slot: the `k`-th is the value `k` slots on |
| RingBuffers.Slice | src/utility/ring_buffer.rs:60-67 | a slice holds exactly the values of the storage range it covers, in order |
| RingBuffers.SplitIndex | src/utility/ring_buffer.rs:59-67 | the `j`-th slot after a start is the `j`-th index covered by the split's first run, then its second |
| RingBuffers.SplitWindow | src/utility/ring_buffer.rs:91-99 | reading `n` slots circularly is reading the first run, then the run from slot 0 |
| RingBuffers.WindowAppend | src/utility/ring_buffer.rs:57-70 | the window of `m + n` slots is the first `m` followed by the `n` after them |
| RingBuffers.WriteBranches | src/utility/ring_buffer.rs:59-80 | both branches of `write_buffers` return exactly the split of the claimed slots, of total length `n`; the `min` with `head` never cuts |
| RingBuffers.WriteSplitRule | src/utility/ring_buffer.rs:59-80 | if `tail >= head`, the first slice reaches the physical end unless it holds everything, and the second stops at `head`; if `tail < head`, there is one slice, and it stops at `head` |
| RingBuffers.ClaimedSlotsFree | src/utility/ring_buffer.rs:59-80 | no slot of either returned write slice holds an unread element |
| RingBuffers.WriteAdvance | src/utility/ring_buffer.rs:69-77 | the new `tail` computed with `%` is `n` slots on, right after the grown data |
| RingBuffers.ReadBranches | src/utility/ring_buffer.rs:91-107 | both branches of `read` return exactly the split of the released slots, of total length `n`; the `min` with `tail` never cuts |
| RingBuffers.ReadSplitRule | src/utility/ring_buffer.rs:91-107 | if `tail <= head`, the second slice stops at `tail`; if `tail > head`, there is one slice, and it stops at `tail` |
| RingBuffers.ReadAdvance | src/utility/ring_buffer.rs:96-104 | the new `head` computed with `%` is `n` slots on, and the rest of the data still ends at `tail` |
| RingBuffers.WriteContents | src/utility/ring_buffer.rs:57-80 | claiming `n` slots appends to the contents the values of the two write slices, first then second |
| RingBuffers.ReadContents | src/utility/ring_buffer.rs:87-107 | the two read slices hold the `n` oldest elements in order, and the remaining contents are the rest |
| RingBuffers.Overwrite | src/utility/ring_buffer.rs:219-224 | writing through a slice changes exactly the slots it covers, to the given values in order; every other slot keeps its value |
| RingBuffers.FilledWindow | src/platform/windows/win32main.rs:662-669 | copying samples into the two claimed slices leaves the unread data in place and appends exactly those samples |
| RingBuffers.UnfilledWindow | src/utility/ring_buffer.rs:51-53 | copying into the two empty slices of a full buffer leaves the contents unchanged |
| RingBuffers.Fill | src/utility/ring_buffer.rs:363-364 | `fill(v)` sets every slot of the slice to `v` and no other slot |
| RingBuffers.CopyInto | src/platform/windows/win32main.rs:663-669 | the element-wise copy loop stores the values, in order, in the slice's slots and no others |
| RingBuffers.CopyChained | src/platform/windows/win32main.rs:662-669 | the chained zip copy stores the samples, in order, through the first slice and then the second, and changes no other slot |
| RingBuffers.WriteSlices | src/utility/ring_buffer.rs:59-80 | the slice-picking branches of `write_buffers` yield the split of the `n` slots after `tail`, and the new `tail` `n` slots on |
| RingBuffers.ReadSlices | src/utility/ring_buffer.rs:91-107 | the slice-picking branches of `read` yield the split of the `n` slots from `head`, and the new `head` `n` slots on |
| RingBuffers.PushAll | src/utility/ring_buffer.rs:28-31 | the construction loop yields exactly `capacity` values, the `i`-th being the `i`-th `fill()` result |
| RingBuffers.RingBuffer.Contents | src/utility/ring_buffer.rs:7-15 | the unread elements number exactly `len` |
| RingBuffers.RingBuffer.New | src/utility/ring_buffer.rs:24-40 | exactly `capacity` slots, slot `i` holding the `i`-th `fill()` result; `head == tail == len == 0`; the buffer is valid and empty |
| RingBuffers.RingBuffer.WithDefault | src/utility/ring_buffer.rs:17-20 | every slot holds the default value; the buffer is valid and empty |
| RingBuffers.RingBuffer.Len | src/utility/ring_buffer.rs:46-48 | in a valid buffer the count never exceeds `capacity` |
| RingBuffers.RingBuffer.Space | src/utility/ring_buffer.rs:42-44 | `space() + len() == capacity`, whenever the subtraction does not underflow |
| RingBuffers.RingBuffer.WriteBuffers | src/utility/ring_buffer.rs:50-81 | a full buffer returns two empty slices and changes nothing; otherwise it claims `min(space, amount)` slots as the split after `tail`, grows `len` and advances `tail` by that much mod `capacity`, appends those slots to the contents, and keeps the invariant |
| RingBuffers.RingBuffer.Read | src/utility/ring_buffer.rs:83-108 | an empty buffer returns two empty slices and changes nothing; otherwise the slices hold the `min(len, amount)` oldest elements in order, `len` drops and `head` advances by that much mod `capacity`, the rest stays queued, and the invariant holds |
| RingBuffers.RingBuffer.WriteFrom | src/platform/windows/win32main.rs:662-669 | the producer's claim-and-copy stores `min(space, number of samples)` samples and appends exactly those to the contents |
| RingBufferTests.ReadValues | utility/src/audio.rs:19-20 | the consumer's read-and-chain yields the `min(len, amount)` oldest elements in order and leaves the rest queued |
| RingBufferTests.WriteThenRead | src/utility/ring_buffer.rs:50-108 | for every state: what is read, followed by what stays queued, is the old contents followed by the written samples; on an empty buffer the reader gets the samples back in order |
| RingBufferTests.Built | src/utility/ring_buffer.rs:230-236 | the tests' hand-written struct literal: a fresh buffer of 10 zero slots with the given `head`, `tail` and `len` |
| RingBufferTests.ReadFrom | src/utility/ring_buffer.rs:373 | `read(amount)` as the tests call it: the clamped split from `head`, the new `head` and `len`, the storage untouched; an empty buffer stays as it is |
| RingBufferTests.FillBoth | src/utility/ring_buffer.rs:238-243 | the tests' two fill loops set the first slice to one value and the second to another, and no other slot |
| RingBufferTests.WriteAndFill | src/utility/ring_buffer.rs:237-243 | `write_buffers` then filling both slices paints exactly the split after `tail` and leaves every other slot alone; a full buffer is left untouched |
| RingBufferTests.EmptyLen | src/utility/ring_buffer.rs:118-122 | a new buffer of 10 has `len() == 0` |
| RingBufferTests.EmptyLenMiddle | src/utility/ring_buffer.rs:124-135 | head = tail = 5, len 0 gives `len() == 0` |
| RingBufferTests.LenTailBeforeHead | src/utility/ring_buffer.rs:137-148 | head 5, tail 4, len 9 gives `len() == 9` |
| RingBufferTests.LenHeadBeforeTail | src/utility/ring_buffer.rs:150-161 | head 1, tail 5, len 4 gives `len() == 4` |
| RingBufferTests.EmptySpace | src/utility/ring_buffer.rs:163-167 | a new buffer of 10 has `space() == 10` |
| RingBufferTests.EmptySpaceMiddle | src/utility/ring_buffer.rs:169-180 | head = tail = 5, len 0 gives `space() == 10` |
| RingBufferTests.SpaceTailBeforeHead | src/utility/ring_buffer.rs:182-193 | head 5, tail 3, len 9 gives `space() == 1` |
| RingBufferTests.SpaceHeadBeforeTail | src/utility/ring_buffer.rs:195-206 | head 1, tail 5, len 4 gives `space() == 6` |
| RingBufferTests.WriteEmptyBufferSizes | src/utility/ring_buffer.rs:208-213 | claiming 5 of an empty 10 gives slices of lengths (5, 0) |
| RingBufferTests.WriteEmpty | src/utility/ring_buffer.rs:215-226 | the storage becomes `[1,1,1,1,1,0,0,0,0,0]` |
| RingBufferTests.WriteEmptyMiddle | src/utility/ring_buffer.rs:228-245 | the storage becomes `[0,0,0,0,0,1,1,1,1,1]` |
| RingBufferTests.WriteEmptyBorder | src/utility/ring_buffer.rs:247-264 | the storage becomes `[2,2,0,0,0,0,0,1,1,1]` |
| RingBufferTests.WriteFull | src/utility/ring_buffer.rs:285-302 | the storage of a full buffer stays all zeros |
| RingBufferTests.WriteTailBeforeHead | src/utility/ring_buffer.rs:304-321 | the storage becomes `[0,0,1,1,1,1,1,0,0,0]` |
| RingBufferTests.WriteTailAfterHead | src/utility/ring_buffer.rs:323-340 | the storage becomes `[2,2,2,2,2,2,2,0,0,1]` |
| RingBufferTests.ReadEmpty | src/utility/ring_buffer.rs:342-347 | reading 5 from an empty buffer gives slices of lengths (0, 0) |
| RingBufferTests.Read2 | src/utility/ring_buffer.rs:349-357 | after claiming 2, reading 5 gives slices of lengths (2, 0) |
| RingBufferTests.TwoWrites | src/utility/ring_buffer.rs:361-367 | writes of 2 and 5 leave `[1,1,2,2,2,2,2,0,0,0]`, with tail 7 and len 7 |
| RingBufferTests.ThreeWrites | src/utility/ring_buffer.rs:361-371 | a third write of 2 leaves `[1,1,2,2,2,2,2,3,3,0]`, with tail 9 and len 9 |
| RingBufferTests.ReadThenWrap | src/utility/ring_buffer.rs:373-378 | reading 5 yields `[1,1,2,2,2]`; writing 4 then wraps to `[-4,-4,-4,2,2,2,2,3,3,4]` |
| RingBufferTests.Sequence | src/utility/ring_buffer.rs:359-385 | the final read of 9 yields `[2,2,3,3,4]` then `[-4,-4,-4]` |

## Left out

- Units.Kilobytes: arguments whose product overflows `usize` are excluded by precondition. The source panics on them when overflow checks are on (debug builds) and wraps modulo 2^64 when they are off (release builds). The calls in the platform layer (`megabytes(64)`, `gigabytes(4)` at src/platform/windows/win32main.rs:404-414) stay far below the bound.
- Units.Megabytes: overflowing arguments are excluded by precondition, as for Kilobytes.
- Units.Gigabytes: overflowing arguments are excluded by precondition, as for Kilobytes.
- Units.Terrabytes: overflowing arguments are excluded by precondition, as for Kilobytes.
- The `Mutex`/`Arc` sharing between the game loop and the audio thread. The buffer is modelled single-threaded, since the locking is outside it.
- The cpal audio stream and the `f32` samples.
- The two-sample padding with `0.0` in `BufferAudioSource::sample`. Of it, only the read and the chaining of the two slices are modelled, as `ReadValues`.
- Win32, XInput and the game's framebuffer code. The producer's `to_fill` computation at src/platform/windows/win32main.rs:648 and the samples it copies become the parameter of `WriteFrom`.
- Slices are modelled as `Span`s (start and length) into the storage, not as borrows, so borrowing and aliasing are not modelled. Writing through a slice is `Fill`/`CopyInto` on the storage array.
- RingBuffers.RingBuffer.WriteBuffers: on a full buffer, the two empty slices are specified only as empty spans within the storage. The source's `&mut []` has no position, so there is nothing more to state.
- RingBuffers.RingBuffer.Read: on an empty buffer, the two empty slices are specified only as empty spans within the storage, for the same reason.
- RingBuffers.RingBuffer.New: the `FnMut` `fill` closure is modelled as a function of the call number, so slot `i` holds the value of the `i`-th call. Side effects of `fill` are not modelled.
- `usize` overflow of `tail + amount` and `head + amount` is not modelled. Both stay below `2 * capacity`, which fits whenever the storage `Vec` could be allocated.
- `capacity == 0` is admitted, not excluded. The early returns of `write_buffers` and `read` fire before any `% capacity`, and `Valid()` then forces `head == tail == 0`.
- The test `write_empty_too_much` (src/utility/ring_buffer.rs:266-283) is not modelled. It runs on 11 storage slots for a capacity of 10, which breaks the storage-length invariant.
- RingBufferTests.WriteFull: the source test sets `tail` to 6, which breaks `(head + len) % capacity == tail`. The model uses `tail` 7. The full-buffer branch returns before `tail` is read, so the observed storage is the same.
- The `len`/`space` tests build their buffers with empty storage (`vec![]`). The model gives them ten zero slots; only the `len`/`space` arithmetic is observed.
- The `println!` in the `test` scenario (src/utility/ring_buffer.rs:380) has no observable effect on the buffer and is left out.
