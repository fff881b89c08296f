/** What a job says, in the numbers of the stock and the bits of the pages.

  The reader is the only thing between the bytes and these statements. */
module PrintedJob {
  import opened Bytes
  import opened Media
  import opened Raster
  import opened RasterReader

  /** Bit by bit, most significant first. */
  predicate BlackInLine(line: seq<byte>, p: nat)
    requires p / 8 < |line|
  {
    line[p / 8] & (0x80 >> (p % 8)) != 0
  }

  /** Rows of a page start at whole bytes; outside of the bitmap nothing is black. */
  predicate BlackInPage(page: Page, x: nat, y: nat) {
    BlackBehind(page, (page.widthDots + 7) / 8 * y, x)
  }

  predicate BlackBehind(page: Page, start: nat, x: nat) {
    start + x / 8 < |page.bitmap| && page.bitmap[start + x / 8] & (0x80 >> (x % 8)) != 0
  }

  /** Where the left edge of a page lands: flush with the right margin, if there is room for both. */
  function LeftEdge(media: MediaSpec, page: Page): nat {
    if page.widthDots + media.rightMarginDots <= 720 then 720 - page.widthDots - media.rightMarginDots else 0
  }

  /** The command header in front of a page says this. */
  predicate Says(settings: Settings, media: MediaSpec, autoCut: bool, page: Page, first: bool) {
    && settings.kindCode == (if media.kind == Continuous then 0x0A else 0x0B)
    && settings.widthMm == media.widthMm && settings.lengthMm == media.lengthMm
    && settings.lineCount == page.heightDots && settings.continuation == !first
    && settings.cutEach == autoCut && settings.cutEnd == autoCut
    && settings.feedMargin == (if media.kind == Continuous then media.feedMarginDots else 0)
  }

  /** Line `k` shows row `k` of the page from `left` on, and nothing else. */
  ghost predicate Shows(line: seq<byte>, page: Page, k: nat, left: nat) {
    && |line| == 90
    && forall p :: 0 <= p < 720 ==>
         (BlackInLine(line, p) <==> left <= p < left + page.widthDots && BlackInPage(page, p - left, k))
  }

  lemma LineDots(line: seq<byte>, p: nat)
    requires p / 8 < |line|
    ensures DotAt(line, p) <==> BlackInLine(line, p)
  {
  }

  lemma PageByte(page: Page, y: nat, stride: nat, start: nat, i: nat)
    requires page.Valid() && y < page.heightDots
    requires stride == RowBytes(page.widthDots) && start == stride * y && i < stride
    ensures start + i < |page.bitmap| && page.Row(y)[i] == page.bitmap[start + i]
  {
    RowFits(stride, y, page.heightDots);
  }

  lemma PageDot(page: Page, x: nat, y: nat, stride: nat, start: nat)
    requires page.Valid() && y < page.heightDots && x / 8 < stride
    requires stride == RowBytes(page.widthDots) && start == stride * y
    ensures DotAt(page.Row(y), x) <==> BlackBehind(page, start, x)
  {
    PageByte(page, y, stride, start, x / 8);
  }

  lemma PageDots(page: Page, x: nat, y: nat)
    requires page.Valid() && x < page.widthDots && y < page.heightDots
    ensures DotAt(page.Row(y), x) <==> BlackInPage(page, x, y)
  {
    var stride := (page.widthDots + 7) / 8;
    PageDot(page, x, y, stride, stride * y);
  }

  lemma HeadLineShows(line: seq<byte>, media: MediaSpec, page: Page, k: nat)
    requires page.Valid() && k < page.heightDots && ShowsRow(media, page, k, line)
    ensures Shows(line, page, k, LeftEdge(media, page))
  {
    var left := LeftEdge(media, page);
    PlacementFits(media, page);
    forall p | 0 <= p < 720
      ensures BlackInLine(line, p) <==> left <= p < left + page.widthDots && BlackInPage(page, p - left, k)
    {
      LineDots(line, p);
      if left <= p < left + page.widthDots {
        PageDots(page, p - left, k);
      }
    }
  }

  /** A job for any stock and any pages reads back as this: for each page a header with the numbers of the
    stock, and its rows, dot for dot, flush with the right margin of the stock. */
  lemma JobSays(media: MediaSpec, autoCut: bool, pages: seq<Page>, job: seq<byte>)
    requires pages != [] && IsJob(media, autoCut, pages, job)
    ensures ReadJob(job).Some? && |ReadJob(job).value| == |pages|
    ensures forall i :: 0 <= i < |pages| ==>
              var image := ReadJob(job).value[i];
              && pages[i].Valid() && Says(image.settings, media, autoCut, pages[i], i == 0)
              && |image.lines| == pages[i].heightDots
              && forall k :: 0 <= k < |image.lines| ==> Shows(image.lines[k], pages[i], k, LeftEdge(media, pages[i]))
  {
    JobReadsBack(media, autoCut, pages, job);
    var images := ReadJob(job).value;
    forall i, k | 0 <= i < |pages| && 0 <= k < pages[i].heightDots
      ensures pages[i].Valid() && Shows(images[i].lines[k], pages[i], k, LeftEdge(media, pages[i]))
    {
      assert Depicts(media, autoCut, pages[i], i == 0, images[i]);
      HeadLineShows(images[i].lines[k], media, pages[i], k);
    }
    forall i | 0 <= i < |pages| ensures Says(images[i].settings, media, autoCut, pages[i], i == 0) {
      assert Depicts(media, autoCut, pages[i], i == 0, images[i]);
    }
  }

  /** On supported stock the feed margin is 35 dots if the stock is continuous, and 0 if it is die-cut. */
  lemma SupportedFeedMargin(media: MediaSpec, autoCut: bool, pages: seq<Page>, job: seq<byte>, i: nat)
    requires pages != [] && IsJob(media, autoCut, pages, job) && media in SUPPORTED_MEDIA && i < |pages|
    ensures ReadJob(job).Some? && i < |ReadJob(job).value|
    ensures ReadJob(job).value[i].settings.feedMargin == if media.kind == Continuous then 35 else 0
    ensures media.kind == Continuous ==> ReadJob(job).value[i].settings.lengthMm == 0
  {
    JobSays(media, autoCut, pages, job);
    SupportedStock();
  }

  /** A job starts with 400 bytes of 0, which end whatever was there before, and then resets the printer, puts it
    into raster mode and asks for its status. */
  lemma JobStarts(media: MediaSpec, autoCut: bool, pages: seq<Page>, job: seq<byte>)
    requires IsJob(media, autoCut, pages, job)
    ensures |job| >= 409 && (forall i :: 0 <= i < 400 ==> job[i] == 0)
    ensures job[400..409] == [0x1B, 0x40, 0x1B, 0x69, 0x61, 0x01, 0x1B, 0x69, 0x53]
  {
    var sheets :| JobOf(media, autoCut, pages, job, sheets);
    PreambleReads(job, Joined(SheetParts(media, autoCut, sheets), 0, |pages|));
  }

  /** The commands of a page header, around the media, the page height and the feed margin. */
  lemma HeaderCommands(media: MediaSpec, autoCut: bool, height: u16, first: bool)
    ensures var h := PageHeader(media, autoCut, height, first);
            && |h| == 32
            && h[..4] == [0x1B, 0x69, 0x7A, 0xCE] && h[11..13] == [if first then 0 else 1, 0]
            && h[13..25] == [0x1B, 0x69, 0x4D, if autoCut then 0x40 else 0, 0x1B, 0x69, 0x41, 1, 0x1B, 0x69, 0x4B,
                             if autoCut then 0x08 else 0]
            && h[25..28] == [0x1B, 0x69, 0x64] && h[30..] == [0x4D, 0x02]
  {
    InformationReads(media, height, first);
    MarginsRead(media);
    var h := PageHeader(media, autoCut, height, first);
    var information, modes, margins := PrintInformation(media, height, first), ModeCommands(autoCut), Margins(media);
    assert h[..13] == information && h[13..25] == modes && h[25..30] == margins && h[30..] == [0x4D, 0x02];
    assert h[..4] == information[..4] && h[11..13] == information[11..] && h[25..28] == margins[..3];
  }
}
