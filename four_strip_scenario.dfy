/**
 * A client of the draw buffer: one full queueing cycle with four RGB strips of
 * 154, 168, 84 and 154 LEDs, showing what a caller can conclude from the
 * contracts alone (repeated phase calls are no-ops, the stride is 504 bytes,
 * the store holds 2016, and a clear-first read zeroes the short strip's whole
 * slice, its trailing 252 unused bytes included).
 */
module FourStripScenario {
  import opened DrawBuffer

  /** One full cycle with the four strips, every phase call made twice. */
  method QueueFourStrips() returns (b: RectangularDrawBuffer)
    ensures fresh(b) && b.Valid()
    ensures b.mDrawList == FourStrips() && b.mPrevDrawList == []
    ensures b.mPinToLedSegment == SliceTable(FourStrips(), 504)
    ensures b.mQueueState == QueueDone
    ensures |b.mAllLedsBufferUint8| == 2016
    ensures forall i :: 0 <= i < |b.mAllLedsBufferUint8| ==> b.mAllLedsBufferUint8[i] == 0
  {
    var items := FourStrips();
    b := new RectangularDrawBuffer();
    b.OnQueuingStart();
    b.OnQueuingStart();
    for i := 0 to |items|
      invariant b.Valid() && b.mQueueState == Queueing
      invariant b.mDrawList == items[..i] && b.mPrevDrawList == []
    {
      b.Queue(items[i]);
    }
    assert items[..|items|] == items;
    FourStripLayout();
    b.OnQueuingDone();
    ghost var done := b.mAllLedsBufferUint8;
    b.OnQueuingDone();
    assert b.mAllLedsBufferUint8 == done;
  }

  /** Reading the four-strip buffer back: sizes, the short strip's slice, an unknown pin. */
  method ReadFourStrips()
  {
    var b := QueueFourStrips();
    FourStripLayout();
    var total := b.GetTotalBytes();
    assert total == 2016;
    var short := b.GetLedsBufferBytesForPin(3, true);
    assert short == Some(Slice(1008, 504));
    assert forall i :: 1008 <= i < 1008 + 504 ==> b.mAllLedsBufferUint8[i] == 0;
    var unknown := b.GetLedsBufferBytesForPin(9, false);
    assert unknown == None;
  }
}
