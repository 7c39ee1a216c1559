/**
 * A model of fl::RectangularDrawBuffer: LED bytes for several output pins are
 * staged in one contiguous backing store, every pin getting a slice of the same
 * length (the largest byte size among the queued strips). Slices are modelled as
 * (offset, size) ranges into the backing store instead of raw pointers.
 */
module DrawBuffer {

  type uint8 = x: int | 0 <= x < 0x100
  type uint16 = x: int | 0 <= x < 0x1_0000
  type uint32 = x: int | 0 <= x < 0x1_0000_0000

  datatype Option<T> = None | Some(value: T)

  /** One strip to be drawn on one output pin; mNumBytes is its RGB byte count. */
  datatype DrawItem = DrawItem(mPin: uint8, mIsRgbw: bool, mNumBytes: uint32)

  /** A byte range of the backing store (the C++ Slice's pointer becomes an offset). */
  datatype Slice = Slice(offset: nat, size: nat)

  datatype QueueState = Idle | Queueing | QueueDone

  /**
   * DrawItem's constructor. `sizeAsRgb` stands for Rgbw::size_as_rgb, the
   * number of RGB pixels that an RGBW strip of the given length occupies; its
   * result is stored back into the 16-bit LED count, hence the truncation.
   */
  function MakeDrawItem(pin: uint8, numLeds: uint16, isRgbw: bool, sizeAsRgb: nat -> nat): (r: DrawItem)
    ensures r.mPin == pin && r.mIsRgbw == isRgbw
    ensures r.mNumBytes % 3 == 0 && r.mNumBytes <= 3 * 0xFFFF
    ensures !isRgbw ==> r.mNumBytes == 3 * numLeds
    ensures isRgbw ==> r.mNumBytes / 3 == sizeAsRgb(numLeds) % 0x1_0000
    ensures isRgbw && sizeAsRgb(numLeds) < 0x1_0000 ==> r.mNumBytes == 3 * sizeAsRgb(numLeds)
  {
    var leds: uint16 := if isRgbw then sizeAsRgb(numLeds) % 0x1_0000 else numLeds;
    DrawItem(pin, isRgbw, leds * 3)
  }

  /** The largest byte size among `items`, taken left to right as the source's loop does. */
  function MaxBytes(items: seq<DrawItem>): (r: uint32)
    ensures items == [] ==> r == 0
    ensures forall i :: 0 <= i < |items| ==> items[i].mNumBytes <= r
    ensures items != [] ==> exists i :: 0 <= i < |items| && items[i].mNumBytes == r
  {
    if items == [] then 0
    else
      var m := MaxBytes(items[..|items| - 1]);
      var last := items[|items| - 1].mNumBytes;
      if m < last then last else m
  }

  /** j * stride + stride <= k * stride whenever j < k: slice j ends where slice k may start. */
  lemma {:induction false} StrideMonotone(j: nat, k: nat, stride: nat)
    requires j < k
    ensures j * stride + stride <= k * stride
  {
    if k == j + 1 {
      assert k * stride == j * stride + stride;
    } else {
      StrideMonotone(j, k - 1, stride);
      assert k * stride == (k - 1) * stride + stride;
    }
  }

  /** The layout loop's offset advances to (i + 1) * stride without wrapping while the total fits 32 bits. */
  lemma OffsetStep(i: nat, n: nat, stride: nat)
    requires i < n && n * stride < 0x1_0000_0000
    ensures i * stride + stride == (i + 1) * stride < 0x1_0000_0000
    ensures (i * stride + stride) % 0x1_0000_0000 == (i + 1) * stride
  {
    StrideMonotone(i, n, stride);
  }

  /**
   * The total byte count as computed in uint32: the list size is cast to
   * 32 bits and the product wraps. Without overflow it is |items| * MaxBytes.
   */
  function TotalBytes(items: seq<DrawItem>): (r: uint32)
    ensures |items| * MaxBytes(items) < 0x1_0000_0000 ==> r == |items| * MaxBytes(items)
  {
    Uint32Product(|items|, MaxBytes(items));
    (|items| % 0x1_0000_0000) * MaxBytes(items) % 0x1_0000_0000
  }

  /** A uint32 cast of n times m, wrapped, is n * m itself when that product fits 32 bits. */
  lemma Uint32Product(n: nat, m: nat)
    ensures n * m < 0x1_0000_0000 ==> (n % 0x1_0000_0000) * m % 0x1_0000_0000 == n * m
  {
    if m > 0 && n * m < 0x1_0000_0000 {
      assert n <= n * m;
      assert n % 0x1_0000_0000 == n;
    }
  }

  /** The pins of `items`. */
  function Pins(items: seq<DrawItem>): set<uint8>
  {
    set k | 0 <= k < |items| :: items[k].mPin
  }

  /**
   * The pin-to-slice map that the layout loop of onQueuingDone builds: the k-th
   * item's pin is (re)assigned the slice at k * stride of length stride.
   */
  function SliceTable(items: seq<DrawItem>, stride: nat): (t: map<uint8, Slice>)
    ensures t.Keys == Pins(items)
  {
    if items == [] then map[]
    else
      var n := |items| - 1;
      assert Pins(items) == Pins(items[..n]) + {items[n].mPin} by {
        forall p | p in Pins(items) ensures p in Pins(items[..n]) + {items[n].mPin} {
          var k :| 0 <= k < |items| && items[k].mPin == p;
          if k < n { assert items[..n][k] == items[k]; }
        }
      }
      SliceTable(items[..n], stride)[items[n].mPin := Slice(n * stride, stride)]
  }

  /** The index of the last item queued for `pin`, or -1 when there is none. */
  function LastIndex(items: seq<DrawItem>, pin: uint8): (k: int)
    ensures -1 <= k < |items|
    ensures k >= 0 ==> items[k].mPin == pin
    ensures forall j :: k < j < |items| ==> items[j].mPin != pin
  {
    if items == [] then -1
    else if items[|items| - 1].mPin == pin then |items| - 1
    else LastIndex(items[..|items| - 1], pin)
  }

  /**
   * Closed form of the layout: a pin has a slice iff it was queued, and its
   * slice is the one of its LAST queue position (a later entry wins).
   */
  lemma {:induction false} SliceTableByLastIndex(items: seq<DrawItem>, stride: nat, pin: uint8)
    ensures pin in SliceTable(items, stride) <==> LastIndex(items, pin) >= 0
    ensures pin in SliceTable(items, stride) ==>
      SliceTable(items, stride)[pin] == Slice(LastIndex(items, pin) * stride, stride)
  {
    if items != [] {
      SliceTableByLastIndex(items[..|items| - 1], stride, pin);
    }
  }

  /** One turn of the layout loop: slice i is assigned to the i-th item's pin. */
  lemma SliceTableStep(items: seq<DrawItem>, i: nat, stride: nat)
    requires i < |items|
    ensures SliceTable(items[..i + 1], stride) == SliceTable(items[..i], stride)[items[i].mPin := Slice(i * stride, stride)]
  {
    assert items[..i + 1][..i] == items[..i];
  }

  predicate Within(s: Slice, len: nat)
  {
    s.offset + s.size <= len
  }

  predicate Disjoint(s: Slice, t: Slice)
  {
    s.offset + s.size <= t.offset || t.offset + t.size <= s.offset
  }

  predicate SlicesWithin(t: map<uint8, Slice>, len: nat)
  {
    forall p :: p in t ==> Within(t[p], len)
  }

  predicate SlicesDisjoint(t: map<uint8, Slice>)
  {
    forall p, q :: p in t && q in t && p != q ==> Disjoint(t[p], t[q])
  }

  /** Every slice of the layout has length stride, lies in the store, and no two overlap. */
  lemma SliceTableLayout(items: seq<DrawItem>, stride: nat)
    ensures forall p :: p in SliceTable(items, stride) ==> SliceTable(items, stride)[p].size == stride
    ensures SlicesWithin(SliceTable(items, stride), |items| * stride)
    ensures SlicesDisjoint(SliceTable(items, stride))
  {
    var t := SliceTable(items, stride);
    forall p | p in t
      ensures t[p].size == stride && Within(t[p], |items| * stride)
    {
      SliceTableByLastIndex(items, stride, p);
      StrideMonotone(LastIndex(items, p), |items|, stride);
    }
    forall p, q | p in t && q in t && p != q
      ensures Disjoint(t[p], t[q])
    {
      SliceTableByLastIndex(items, stride, p);
      SliceTableByLastIndex(items, stride, q);
      var kp, kq := LastIndex(items, p), LastIndex(items, q);
      assert kp != kq by { assert items[kp].mPin == p && items[kq].mPin == q; }
      if kp < kq { StrideMonotone(kp, kq, stride); } else { StrideMonotone(kq, kp, stride); }
    }
  }

  /** The store after memset(slice, 0): the slice's bytes are 0, every other byte is kept. */
  function ZeroFill(buf: seq<uint8>, s: Slice): (r: seq<uint8>)
    requires Within(s, |buf|)
    ensures |r| == |buf|
    ensures forall i :: 0 <= i < |r| ==> r[i] == if s.offset <= i < s.offset + s.size then 0 else buf[i]
  {
    buf[..s.offset] + seq(s.size, _ => 0) + buf[s.offset + s.size..]
  }

  /** Clearing one pin's slice leaves the bytes of every other pin's slice as they were. */
  lemma ZeroFillKeepsOtherSlices(buf: seq<uint8>, t: map<uint8, Slice>, pin: uint8)
    requires SlicesWithin(t, |buf|) && SlicesDisjoint(t) && pin in t
    ensures forall q :: q in t && q != pin ==>
      ZeroFill(buf, t[pin])[t[q].offset..t[q].offset + t[q].size] == buf[t[q].offset..t[q].offset + t[q].size]
  {
    var r := ZeroFill(buf, t[pin]);
    forall q | q in t && q != pin
      ensures r[t[q].offset..t[q].offset + t[q].size] == buf[t[q].offset..t[q].offset + t[q].size]
    {
      assert Disjoint(t[pin], t[q]);
      var lo, hi := t[q].offset, t[q].offset + t[q].size;
      assert forall i :: lo <= i < hi ==> r[i] == buf[i];
    }
  }

  /** The worked example: RGB strips of 154, 168, 84 and 154 LEDs on pins 1 to 4. */
  function FourStrips(): seq<DrawItem>
  {
    [DrawItem(1, false, 462), DrawItem(2, false, 504), DrawItem(3, false, 252), DrawItem(4, false, 462)]
  }

  /** These are the items DrawItem's constructor makes for those strips. */
  lemma FourStripsAreMade(sizeAsRgb: nat -> nat)
    ensures FourStrips() == [MakeDrawItem(1, 154, false, sizeAsRgb), MakeDrawItem(2, 168, false, sizeAsRgb),
                             MakeDrawItem(3, 84, false, sizeAsRgb), MakeDrawItem(4, 154, false, sizeAsRgb)]
  {
  }

  /** Stride 504 (168 LEDs times 3), total 2016, and the 84-LED strip on pin 3 gets bytes 1008 to 1511. */
  lemma FourStripLayout()
    ensures MaxBytes(FourStrips()) == 504
    ensures TotalBytes(FourStrips()) == 2016
    ensures 3 in SliceTable(FourStrips(), 504)
    ensures SliceTable(FourStrips(), 504)[3] == Slice(1008, 504)
  {
    var items := FourStrips();
    assert items[..1] == [items[0]] && MaxBytes(items[..1]) == 462;
    assert items[..2] == items[..2][..1] + [items[1]] && MaxBytes(items[..2]) == 504;
    assert items[..3][..2] == items[..2] && MaxBytes(items[..3]) == 504;
    assert items[..3] == items[..|items| - 1];
    assert LastIndex(items, 3) == 2 by {
      assert items[..3][2].mPin == 3;
    }
    SliceTableByLastIndex(items, 504, 3);
  }

  class RectangularDrawBuffer {
    var mQueueState: QueueState
    var mDrawList: seq<DrawItem>
    var mPrevDrawList: seq<DrawItem>
    var mPinToLedSegment: map<uint8, Slice>
    var mAllLedsBufferUint8: seq<uint8>

    /**
     * Outside the done phase no pin has a slice and the store is empty; the
     * slices always lie inside the store and no two pins share a byte.
     */
    ghost predicate Valid()
      reads this
    {
      && (mQueueState != QueueDone ==> mPinToLedSegment == map[] && mAllLedsBufferUint8 == [])
      && SlicesWithin(mPinToLedSegment, |mAllLedsBufferUint8|)
      && SlicesDisjoint(mPinToLedSegment)
    }

    constructor ()
      ensures Valid()
      ensures mQueueState == Idle && mDrawList == [] && mPrevDrawList == []
      ensures mPinToLedSegment == map[] && mAllLedsBufferUint8 == []
    {
      mQueueState := Idle;
      mDrawList := [];
      mPrevDrawList := [];
      mPinToLedSegment := map[];
      mAllLedsBufferUint8 := [];
    }

    /**
     * The slice of `pin`, zero-filled first when `clearFirst`; an unknown pin
     * yields the empty (null) slice and touches nothing.
     */
    method GetLedsBufferBytesForPin(pin: uint8, clearFirst: bool) returns (r: Option<Slice>)
      requires Valid()
      modifies this`mAllLedsBufferUint8
      ensures Valid()
      ensures pin !in mPinToLedSegment ==> r == None && mAllLedsBufferUint8 == old(mAllLedsBufferUint8)
      ensures pin in mPinToLedSegment ==> r == Some(mPinToLedSegment[pin])
      ensures pin in mPinToLedSegment && clearFirst ==>
        mAllLedsBufferUint8 == ZeroFill(old(mAllLedsBufferUint8), mPinToLedSegment[pin])
      ensures !clearFirst ==> mAllLedsBufferUint8 == old(mAllLedsBufferUint8)
    {
      if pin !in mPinToLedSegment {
        return None;
      }
      var slice := mPinToLedSegment[pin];
      if clearFirst {
        mAllLedsBufferUint8 := ZeroFill(mAllLedsBufferUint8, slice);
      }
      return Some(slice);
    }

    /**
     * Opens a queueing cycle: the current list becomes the previous one, and the
     * list, the pin map and the store are emptied. A no-op while already queueing.
     */
    method OnQueuingStart()
      requires Valid()
      modifies this
      ensures Valid()
      ensures old(mQueueState) == Queueing ==> unchanged(this)
      ensures old(mQueueState) != Queueing ==>
        && mQueueState == Queueing
        && mPinToLedSegment == map[]
        && mPrevDrawList == old(mDrawList)
        && mDrawList == []
        && mAllLedsBufferUint8 == []
    {
      if mQueueState == Queueing {
        return;
      }
      mQueueState := Queueing;
      mPinToLedSegment := map[];
      mDrawList, mPrevDrawList := mPrevDrawList, mDrawList;
      mDrawList := [];
      if mAllLedsBufferUint8 != [] {
        // the store is zeroed before it is released
        mAllLedsBufferUint8 := seq(|mAllLedsBufferUint8|, _ => 0);
        mAllLedsBufferUint8 := [];
      }
    }

    /** Appends `item` to the draw list, in whatever phase; nothing else changes. */
    method Queue(item: DrawItem)
      requires Valid()
      modifies this`mDrawList
      ensures Valid()
      ensures mDrawList == old(mDrawList) + [item]
    {
      mDrawList := mDrawList + [item];
    }

    /**
     * Closes the cycle: the store becomes |mDrawList| * max zero bytes and each
     * queued pin, in queue order, gets the next slice of max bytes. A no-op when
     * already done.
     */
    method OnQueuingDone()
      requires Valid()
      requires mQueueState != QueueDone ==> |mDrawList| * MaxBytes(mDrawList) < 0x1_0000_0000
      modifies this`mQueueState, this`mPinToLedSegment, this`mAllLedsBufferUint8
      ensures Valid()
      ensures old(mQueueState) == QueueDone ==> unchanged(this)
      ensures old(mQueueState) != QueueDone ==>
        && mQueueState == QueueDone
        && |mAllLedsBufferUint8| == |mDrawList| * MaxBytes(mDrawList)
        && (forall i :: 0 <= i < |mAllLedsBufferUint8| ==> mAllLedsBufferUint8[i] == 0)
        && mPinToLedSegment == SliceTable(mDrawList, MaxBytes(mDrawList))
    {
      if mQueueState == QueueDone {
        return;
      }
      mQueueState := QueueDone;
      var numStrips, maxBytesInStrip, totalBytes := GetBlockInfo();
      mAllLedsBufferUint8 := seq(totalBytes, _ => 0);
      // the pin map is built in a local and stored once the layout loop is done
      var items, table := mDrawList, mPinToLedSegment;
      var offset: uint32 := 0;
      for i := 0 to |items|
        invariant offset == i * maxBytesInStrip
        invariant table == SliceTable(items[..i], maxBytesInStrip)
        modifies {}
      {
        table := table[items[i].mPin := Slice(offset, maxBytesInStrip)];
        SliceTableStep(items, i, maxBytesInStrip);
        OffsetStep(i, |items|, maxBytesInStrip);
        offset := (offset + maxBytesInStrip) % 0x1_0000_0000;
      }
      assert items[..|items|] == items;
      SliceTableLayout(items, maxBytesInStrip);
      mPinToLedSegment := table;
    }

    /** The largest byte size among the queued items (0 for an empty list). */
    method GetMaxBytesInStrip() returns (maxBytes: uint32)
      ensures maxBytes == MaxBytes(mDrawList)
      ensures forall i :: 0 <= i < |mDrawList| ==> mDrawList[i].mNumBytes <= maxBytes
      ensures mDrawList == [] ==> maxBytes == 0
      ensures mDrawList != [] ==> exists i :: 0 <= i < |mDrawList| && mDrawList[i].mNumBytes == maxBytes
    {
      maxBytes := 0;
      for i := 0 to |mDrawList|
        invariant maxBytes == MaxBytes(mDrawList[..i])
      {
        assert mDrawList[..i + 1][..i] == mDrawList[..i];
        if maxBytes < mDrawList[i].mNumBytes {
          maxBytes := mDrawList[i].mNumBytes;
        }
      }
      assert mDrawList[..|mDrawList|] == mDrawList;
    }

    /** The store size the current list needs: |mDrawList| * max, in uint32. */
    method GetTotalBytes() returns (totalBytes: uint32)
      ensures totalBytes == TotalBytes(mDrawList)
      ensures |mDrawList| * MaxBytes(mDrawList) < 0x1_0000_0000 ==> totalBytes == |mDrawList| * MaxBytes(mDrawList)
    {
      var numStrips: uint32 := |mDrawList| % 0x1_0000_0000;
      var maxBytes := GetMaxBytesInStrip();
      totalBytes := numStrips * maxBytes % 0x1_0000_0000;
    }

    /** Number of strips, per-strip stride and total size, agreeing with GetTotalBytes. */
    method GetBlockInfo() returns (numStrips: uint32, bytesPerStrip: uint32, totalBytes: uint32)
      ensures numStrips == |mDrawList| % 0x1_0000_0000
      ensures bytesPerStrip == MaxBytes(mDrawList)
      ensures totalBytes == TotalBytes(mDrawList)
      ensures |mDrawList| * bytesPerStrip < 0x1_0000_0000 ==> totalBytes == |mDrawList| * bytesPerStrip
    {
      numStrips := |mDrawList| % 0x1_0000_0000;
      bytesPerStrip := GetMaxBytesInStrip();
      totalBytes := numStrips * bytesPerStrip % 0x1_0000_0000;
      Uint32Product(|mDrawList|, bytesPerStrip);
    }
  }
}
