# Rectangular draw buffer

A Dafny model of FastLED's `fl::RectangularDrawBuffer`, the allocator that
stages LED bytes for several output pins in one contiguous backing store so
that a batched output driver can address every pin with the same stride.

- A `DrawItem` is one strip on one pin. Its byte size is 3 bytes per RGB LED.
  An RGBW strip's LED count is first converted to the RGB-equivalent count by
  `Rgbw::size_as_rgb`.
- The buffer runs a two-phase protocol guarded by a queue state (`Idle`,
  `Queueing`, `QueueDone`):
  - `OnQueuingStart` moves the current draw list into the previous one, then
    empties the list, the pin map and the store.
  - `Queue` appends an item.
  - `OnQueuingDone` sizes the store to (number of items) × (largest item size)
    zero bytes. It then gives each queued pin, in queue order, the next slice
    of exactly that largest size.
  - A repeated start or done call does nothing.
- `GetLedsBufferBytesForPin` returns a pin's slice, zero-filling it first on
  request. An unknown pin gets the empty slice.

The model is the module `DrawBuffer` (`rectangular_draw_buffer.dfy`). The class
`RectangularDrawBuffer` keeps the source's fields: `mQueueState`, `mDrawList`
and `mPrevDrawList` as sequences, `mPinToLedSegment` as a map from pin to
`Slice(offset, size)`, and `mAllLedsBufferUint8` as a byte sequence, since the
source's vector is resized. The object invariant `Valid()` says three things.
Outside the done phase the pin map and the store are empty. Every slice lies
inside the store. No two pins' slices overlap. The methods are proved against
specification functions:
- `MaxBytes` is the largest item size;
- `TotalBytes` is the uint32 total;
- `SliceTable` is the map the layout loop builds;
- `ZeroFill` is the store after a memset of one slice.

The lemmas prove the layout properties. `LastIndex` gives an independent
closed form of the layout: a pin's slice is the one at its last queue position.
The layout's slices all have the stride as length, lie inside the store and are
pairwise disjoint. Clearing one slice leaves every other slice's bytes intact.
`four_strip_scenario.dfy` is a client. It runs one full cycle with strips of
154, 168, 84 and 154 RGB LEDs, and concludes from the contracts alone that the
stride is 504 and the total is 2016. It also concludes that a clear-first read
zeroes the 84-LED strip's whole 504-byte slice.

The code performs no phase check in `queue`, so an item queued after done is
appended without changing the store or the pin map; the store therefore equals
(items × max) only right after a done call.

## Model

| member | source | states |
|---|---|---|
| `DrawBuffer.MakeDrawItem` | src/fl/rectangular_draw_buffer.cpp:8-16 | pin and RGBW flag are kept. The byte size is a multiple of 3 and at most 3 × 65535. An RGB strip's size is 3 × its LED count. An RGBW strip's size is 3 × `size_as_rgb(count)` truncated to 16 bits, and exactly 3 × `size_as_rgb(count)` when that fits 16 bits. |
| `DrawBuffer.FourStripsAreMade` | src/fl/rectangular_draw_buffer.cpp:8-16 | the constructor gives the RGB strips of 154, 168, 84 and 154 LEDs the byte sizes 462, 504, 252 and 462, whatever `size_as_rgb` is |
| `DrawBuffer.RectangularDrawBuffer.GetLedsBufferBytesForPin` | src/fl/rectangular_draw_buffer.cpp:18-29 | an unknown pin yields the empty slice and leaves the store unchanged. A known pin yields its mapped slice. With clear-first the store becomes `ZeroFill` of that slice; without it the store is unchanged. The object invariant is kept. |
| `DrawBuffer.ZeroFill` | src/fl/rectangular_draw_buffer.cpp:25-27 | the store keeps its length. Exactly the bytes inside the slice become 0, and every byte outside it keeps its value. |
| `DrawBuffer.ZeroFillKeepsOtherSlices` | src/fl/rectangular_draw_buffer.cpp:25-27 | with in-bounds, pairwise disjoint slices, clearing one pin's slice leaves the bytes of every other pin's slice unchanged |
| `DrawBuffer.RectangularDrawBuffer.OnQueuingStart` | src/fl/rectangular_draw_buffer.cpp:31-43 | while already queueing nothing changes. Otherwise the state becomes queueing, the pin map, the draw list and the store become empty, and the previous list is the old draw list. The object invariant is kept. |
| `DrawBuffer.RectangularDrawBuffer.Queue` | src/fl/rectangular_draw_buffer.cpp:45-47 | the draw list becomes the old list followed by the item, in any phase. It may change no other field. |
| `DrawBuffer.RectangularDrawBuffer.OnQueuingDone` | src/fl/rectangular_draw_buffer.cpp:49-70 | when already done nothing changes. Otherwise the state becomes done, and the store has length (list length) × max with every byte 0. The pin map is the layout `SliceTable(list, max)`. The object invariant (slices inside the store, pairwise disjoint) is re-established. |
| `DrawBuffer.SliceTable` | src/fl/rectangular_draw_buffer.cpp:62-69 | the layout loop's map has exactly the queued pins as keys |
| `DrawBuffer.LastIndex` | src/fl/rectangular_draw_buffer.cpp:63-67 | the index of the last item queued for a pin: that item has the pin, no later item has it, and -1 means no item has it |
| `DrawBuffer.SliceTableByLastIndex` | src/fl/rectangular_draw_buffer.cpp:62-69 | a pin has a slice if and only if it was queued. Its slice is at offset k × stride with length stride, where k is its last queue position, so a later entry for the same pin wins. |
| `DrawBuffer.SliceTableLayout` | src/fl/rectangular_draw_buffer.cpp:62-69 | every slice of the layout has length stride and lies within (item count) × stride bytes, and slices of distinct pins are disjoint |
| `DrawBuffer.OffsetStep` | src/fl/rectangular_draw_buffer.cpp:68 | while (item count) × stride fits 32 bits, the running uint32 offset advances from i × stride to (i + 1) × stride without wrapping |
| `DrawBuffer.FourStripLayout` | src/fl/rectangular_draw_buffer.cpp:59-69 | for strips of 154, 168, 84 and 154 RGB LEDs the stride is 504, the total is 2016, and the 84-LED strip gets the slice at 1008 of length 504 |
| `DrawBuffer.MaxBytes` | src/fl/rectangular_draw_buffer.cpp:72-78 | 0 for an empty list. It is at least every item's byte size, and for a non-empty list equal to one of them. |
| `DrawBuffer.RectangularDrawBuffer.GetMaxBytesInStrip` | src/fl/rectangular_draw_buffer.cpp:72-78 | the loop returns `MaxBytes` of the draw list. That is 0 for an empty list, at least every item's size, and equal to some item's size otherwise. |
| `DrawBuffer.TotalBytes` | src/fl/rectangular_draw_buffer.cpp:80-84 | the uint32 total equals (item count) × max whenever that product fits 32 bits |
| `DrawBuffer.Uint32Product` | src/fl/rectangular_draw_buffer.cpp:89-91 | casting the list size to uint32 and multiplying with wrap-around gives the exact product when it fits 32 bits |
| `DrawBuffer.RectangularDrawBuffer.GetTotalBytes` | src/fl/rectangular_draw_buffer.cpp:80-84 | returns `TotalBytes` of the draw list, which is (list length) × max without overflow |
| `DrawBuffer.RectangularDrawBuffer.GetBlockInfo` | src/fl/rectangular_draw_buffer.cpp:86-92 | the strip count is the list size as uint32. The bytes per strip equal `MaxBytes`, what `GetMaxBytesInStrip` returns. The total equals `TotalBytes`, what `GetTotalBytes` returns, which is strips × stride without overflow. |
| `FourStripScenario.QueueFourStrips` | src/fl/rectangular_draw_buffer.cpp:31-70 | a client cycle (start twice, queue four strips, done twice) ends with those four items in the list, an empty previous list, the layout for stride 504, and a 2016-byte store of zero bytes, in the done phase |

## Left out

- `Rgbw::size_as_rgb` is not part of this model. `MakeDrawItem` takes it as a function parameter `sizeAsRgb`.
- `FASTLED_ASSERT` on an unknown pin: only the release-build behaviour (the empty slice, modelled as `None`) is modelled, not the debug abort.
- Raw pointers and `memset`: slices are (offset, size) ranges into the store, and zero-filling is a sequence update. Writes that a caller makes later through a returned slice are outside the model.
- Empty store at done (an empty list, or items that all have 0 bytes): `&front()` of the empty store at src/fl/rectangular_draw_buffer.cpp:61 and :65 is undefined behaviour in C++. The model gives a zero-length store; an empty list gets no slices, and otherwise every queued pin gets `Slice(0, 0)`.
- OnQueuingDone: requires that (list length) × max fits 32 bits, because with a wrapped total the C++ slices would run past the store. `TotalBytes`, `GetTotalBytes` and `GetBlockInfo` model the uint32 wrap-around itself.
- OnQueuingStart: the store is zero-filled and then cleared, as in the source. The zero-fill is not observable afterwards.
- `rectangular_draw_buffer.h` is not part of this model. Three things from it are assumed: `mNumBytes` and the block-info values are uint32, and a new buffer starts `Idle` with empty lists, map and store (the constructor).
- `ci/docs.py` and `ci/ci/compile_for_board.py` are documentation and build drivers: subprocesses, downloads, a thread lock. `tests/test_fx.cpp` is a compile-only test with no assertions. None of them is modelled.
- Concurrency: none exists in the source. The buffer is used from a single-threaded loop.
