/** Label stock and the page bitmaps printed on it. */
module Media {
  import opened Bytes
  import opened Wrappers

  type u8 = n: nat | n < 0x100
  type u16 = n: nat | n < 0x1_0000

  const PINS: u16 := 720
  const BYTES_PER_ROW: nat := 90
  const MIN_RASTER_LINES: nat := 150
  const MAX_RASTER_LINES: nat := 11811

  datatype MediaKind = Continuous | DieCut

  datatype MediaSpec = MediaSpec(
    kind: MediaKind,
    widthMm: u8,
    lengthMm: u8,
    totalWidthDots: u16,
    printableWidthDots: u16,
    printableLengthDots: u16,
    rightMarginDots: u16,
    feedMarginDots: u16)
  {
    /** Where the left edge of a bitmap lands in the head line, if it fits at all. */
    function LeftOffsetDots(bitmapWidthDots: u16): Option<u16> {
      if PINS < bitmapWidthDots || PINS - bitmapWidthDots < rightMarginDots then None
      else Some(PINS - bitmapWidthDots - rightMarginDots)
    }

    function FeedMarginForPrint(): u16 {
      match kind
      case Continuous => feedMarginDots
      case DieCut => 0
    }
  }

  function ContinuousStock(widthMm: u8, totalWidth: u16, printableWidth: u16, rightMargin: u16): MediaSpec {
    MediaSpec(Continuous, widthMm, 0, totalWidth, printableWidth, 0, rightMargin, 35)
  }

  function DieCutStock(widthMm: u8, lengthMm: u8, totalWidth: u16, printableWidth: u16, printableLength: u16,
                       rightMargin: u16): MediaSpec {
    MediaSpec(DieCut, widthMm, lengthMm, totalWidth, printableWidth, printableLength, rightMargin, 0)
  }

  const SUPPORTED_MEDIA: seq<MediaSpec> := [
    ContinuousStock(29, 342, 306, 6),
    ContinuousStock(38, 449, 413, 12),
    ContinuousStock(50, 590, 554, 12),
    ContinuousStock(62, 732, 696, 12),
    DieCutStock(17, 54, 201, 165, 566, 0),
    DieCutStock(23, 23, 272, 202, 202, 42),
    DieCutStock(29, 90, 342, 306, 991, 6),
    DieCutStock(62, 29, 732, 696, 271, 12),
    DieCutStock(62, 100, 732, 696, 1109, 12)
  ]

  function RowBytes(widthDots: u16): nat {
    (widthDots + 7) / 8
  }

  datatype RasterError =
    | NoPages
    | WidthMismatch(width: u16, printable: u16)
    | LengthOutOfRange(height: u16)
    | BitmapSizeMismatch(width: u16, height: u16, expected: nat, actual: nat)

  datatype Page = Page(widthDots: u16, heightDots: u16, bitmap: seq<byte>) {
    /** What every page that came out of `NewPage` on supported stock satisfies. */
    predicate Valid() {
      && 0 < widthDots <= PINS
      && MIN_RASTER_LINES <= heightDots <= MAX_RASTER_LINES
      && |bitmap| == RowBytes(widthDots) * heightDots
    }

    function Row(index: nat): (row: seq<byte>)
      requires Valid() && index < heightDots
      ensures |row| == RowBytes(widthDots)
    {
      RowFits(RowBytes(widthDots), index, heightDots);
      var start := RowBytes(widthDots) * index;
      bitmap[start..start + RowBytes(widthDots)]
    }
  }

  lemma RowFits(stride: nat, index: nat, height: nat)
    requires index < height
    ensures stride * index + stride <= stride * height
  {
    assert stride * (index + 1) <= stride * height;
  }

  /** A bitmap becomes a page only if it matches the stock it is meant for. */
  function NewPage(media: MediaSpec, widthDots: u16, heightDots: u16, bitmap: seq<byte>): (r: Result<Page, RasterError>)
    ensures r.Success? <==>
            && widthDots == media.printableWidthDots
            && 150 <= heightDots <= 11811
            && |bitmap| == (widthDots + 7) / 8 * heightDots
    ensures r.Failure? ==>
              r.error == if widthDots != media.printableWidthDots
                         then WidthMismatch(widthDots, media.printableWidthDots)
                         else if heightDots < 150 || heightDots > 11811 then LengthOutOfRange(heightDots)
                         else BitmapSizeMismatch(widthDots, heightDots, (widthDots + 7) / 8 * heightDots, |bitmap|)
    ensures r.Success? && media in SUPPORTED_MEDIA ==> r.value.Valid()
    ensures r.Success? ==>
              r.value.bitmap == bitmap && r.value.widthDots == widthDots && r.value.heightDots == heightDots
  {
    if widthDots != media.printableWidthDots then Failure(WidthMismatch(widthDots, media.printableWidthDots))
    else if !(MIN_RASTER_LINES <= heightDots <= MAX_RASTER_LINES) then Failure(LengthOutOfRange(heightDots))
    else if |bitmap| != RowBytes(widthDots) * heightDots then
      Failure(BitmapSizeMismatch(widthDots, heightDots, RowBytes(widthDots) * heightDots, |bitmap|))
    else Success(Page(widthDots, heightDots, bitmap))
  }

  /** `left_offset_dots(..).unwrap_or(0)`: the offset the encoder places a page at. */
  function LeftOffset(media: MediaSpec, widthDots: u16): u16 {
    match media.LeftOffsetDots(widthDots)
    case Some(offset) => offset
    case None => 0
  }

  /** A page placed with the offset of any stock at all, also one it was not made
    for, never runs past the print head. */
  lemma PlacementFits(media: MediaSpec, page: Page)
    requires page.Valid()
    ensures LeftOffset(media, page.widthDots) + page.widthDots <= 720
    ensures media.LeftOffsetDots(page.widthDots).Some? <==> page.widthDots + media.rightMarginDots <= 720
    ensures page.widthDots + media.rightMarginDots <= 720 ==>
              LeftOffset(media, page.widthDots) + page.widthDots + media.rightMarginDots == 720
    ensures page.widthDots + media.rightMarginDots > 720 ==> LeftOffset(media, page.widthDots) == 0
  {
  }

  /** The supported stock, number by number. */
  lemma SupportedStock()
    ensures SUPPORTED_MEDIA == [
              MediaSpec(Continuous, 29, 0, 342, 306, 0, 6, 35), MediaSpec(Continuous, 38, 0, 449, 413, 0, 12, 35),
              MediaSpec(Continuous, 50, 0, 590, 554, 0, 12, 35), MediaSpec(Continuous, 62, 0, 732, 696, 0, 12, 35),
              MediaSpec(DieCut, 17, 54, 201, 165, 566, 0, 0), MediaSpec(DieCut, 23, 23, 272, 202, 202, 42, 0),
              MediaSpec(DieCut, 29, 90, 342, 306, 991, 6, 0), MediaSpec(DieCut, 62, 29, 732, 696, 271, 12, 0),
              MediaSpec(DieCut, 62, 100, 732, 696, 1109, 12, 0)]
  {
  }

  predicate Fits(media: MediaSpec, kind: MediaKind, widthMm: u8, lengthMm: Option<u8>) {
    media.kind == kind && media.widthMm == widthMm && (kind == Continuous || lengthMm == Some(media.lengthMm))
  }

  /** The first stock that fits, from place `i` on. */
  function LookupFrom(kind: MediaKind, widthMm: u8, lengthMm: Option<u8>, i: nat): Option<MediaSpec>
    decreases |SUPPORTED_MEDIA| - i
  {
    if i >= |SUPPORTED_MEDIA| then None
    else if Fits(SUPPORTED_MEDIA[i], kind, widthMm, lengthMm) then Some(SUPPORTED_MEDIA[i])
    else LookupFrom(kind, widthMm, lengthMm, i + 1)
  }

  function Lookup(kind: MediaKind, widthMm: u8, lengthMm: Option<u8>): Option<MediaSpec> {
    LookupFrom(kind, widthMm, lengthMm, 0)
  }

  lemma {:induction false} LookupFromFinds(kind: MediaKind, widthMm: u8, lengthMm: Option<u8>, i: nat, media: MediaSpec)
    requires i <= |SUPPORTED_MEDIA|
    ensures LookupFrom(kind, widthMm, lengthMm, i) == Some(media) <==>
            && media in SUPPORTED_MEDIA[i..] && media.kind == kind && media.widthMm == widthMm
            && (kind == DieCut ==> lengthMm == Some(media.lengthMm))
    decreases |SUPPORTED_MEDIA| - i
  {
    if i < |SUPPORTED_MEDIA| {
      LookupFromFinds(kind, widthMm, lengthMm, i + 1, media);
      assert SUPPORTED_MEDIA[i..] == [SUPPORTED_MEDIA[i]] + SUPPORTED_MEDIA[i + 1..];
      forall j | i < j < |SUPPORTED_MEDIA| ensures ToldApart(SUPPORTED_MEDIA[i], SUPPORTED_MEDIA[j]) {
        StockDiffers(i, j);
      }
    }
  }

  predicate ToldApart(a: MediaSpec, b: MediaSpec) {
    a.kind != b.kind || a.widthMm != b.widthMm || (b.kind == DieCut && a.lengthMm != b.lengthMm)
  }

  /** Two supported sizes differ in kind, in width or, being die-cut, in length. */
  lemma StockDiffers(i: nat, j: nat)
    requires i < j < |SUPPORTED_MEDIA|
    ensures ToldApart(SUPPORTED_MEDIA[i], SUPPORTED_MEDIA[j])
  {
  }

  /** The lookup finds a stock exactly if it is supported and has this kind and width and, if it is
    die-cut, this length; the length asked for continuous stock does not matter. */
  lemma LookupFinds(kind: MediaKind, widthMm: u8, lengthMm: Option<u8>, media: MediaSpec)
    ensures Lookup(kind, widthMm, lengthMm) == Some(media) <==>
            && media in SUPPORTED_MEDIA && media.kind == kind && media.widthMm == widthMm
            && (kind == DieCut ==> lengthMm == Some(media.lengthMm))
  {
    LookupFromFinds(kind, widthMm, lengthMm, 0, media);
    assert SUPPORTED_MEDIA[0..] == SUPPORTED_MEDIA;
  }
}
