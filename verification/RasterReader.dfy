/** What a printer can read back out of a job.

  `ReadJob` knows nothing about the encoder: it follows the fixed command
  headers, the little-endian line count and the length byte of every row, and
  expands rows by Section 9 of TIFF 6.0. */
module RasterReader {
  import opened Bytes
  import opened Media
  import opened Raster
  import opened TiffPackBits
  import opened Wrappers

  const HEADER_BYTES: nat := 32
  const PREAMBLE_BYTES: nat := 409

  /** What the commands in front of a page say. */
  datatype Settings = Settings(
    kindCode: byte,
    widthMm: nat,
    lengthMm: nat,
    lineCount: nat,
    continuation: bool,
    cutEach: bool,
    cutEnd: bool,
    feedMargin: nat)

  datatype Image = Image(settings: Settings, lines: seq<seq<byte>>)

  function FromLittleEndian(bytes: seq<byte>): nat {
    if bytes == [] then 0 else NatOf(bytes[0]) + 256 * FromLittleEndian(bytes[1..])
  }

  /** `ESC i z`: the media and the length of the page. */
  function ReadInformation(h: seq<byte>): Option<(byte, nat, nat, nat, bool)>
    requires |h| == 13
  {
    if h[..4] == [0x1B, 0x69, 0x7A, 0xCE] && (h[11] == 0 || h[11] == 1) && h[12] == 0 then
      Some((h[4], NatOf(h[5]), NatOf(h[6]), FromLittleEndian(h[7..11]), h[11] == 1))
    else None
  }

  /** `ESC i M`, `ESC i A` and `ESC i K`: the two cut flags. */
  function ReadModes(h: seq<byte>): Option<(bool, bool)>
    requires |h| == 12
  {
    if && h[..3] == [0x1B, 0x69, 0x4D] && h[4..8] == [0x1B, 0x69, 0x41, 1] && h[8..11] == [0x1B, 0x69, 0x4B]
       && (h[3] == 0 || h[3] == 0x40) && (h[11] == 0 || h[11] == 0x08) then
      Some((h[3] == 0x40, h[11] == 0x08))
    else None
  }

  /** `ESC i d` and `M`: the feed margin, and compressed rows to follow. */
  function ReadMargins(h: seq<byte>): Option<nat>
    requires |h| == 7
  {
    if h[..3] == [0x1B, 0x69, 0x64] && h[5..] == [0x4D, 0x02] then Some(FromLittleEndian(h[3..5])) else None
  }

  function ReadSettings(h: seq<byte>): Option<Settings>
    requires |h| == HEADER_BYTES
  {
    match (ReadInformation(h[..13]), ReadModes(h[13..25]), ReadMargins(h[25..]))
    case (Some((kind, width, length, lines, continuation)), Some((cutEach, cutEnd)), Some(margin)) =>
      Some(Settings(kind, width, length, lines, continuation, cutEach, cutEnd, margin))
    case _ => None
  }

  function ReadRows(s: seq<byte>, count: nat): (r: Option<(seq<seq<byte>>, seq<byte>)>)
    ensures r.Some? ==> |r.value.1| <= |s|
    decreases count
  {
    if count == 0 then Some(([], s))
    else if |s| < 3 || s[0] != 0x67 || s[1] != 0 || |s| < 3 + NatOf(s[2]) then None
    else
      var length := NatOf(s[2]);
      match UnpackBits(s[3..3 + length])
      case None => None
      case Some(line) =>
        match ReadRows(s[3 + length..], count - 1)
        case None => None
        case Some((lines, rest)) => Some(([line] + lines, rest))
  }

  function ReadPages(s: seq<byte>): Option<seq<Image>>
    decreases |s|
  {
    if |s| < HEADER_BYTES then None
    else
      match ReadSettings(s[..HEADER_BYTES])
      case None => None
      case Some(settings) =>
        match ReadRows(s[HEADER_BYTES..], settings.lineCount)
        case None => None
        case Some((lines, rest)) => AfterPage(Image(settings, lines), rest)
  }

  /** 0x0C announces another page, 0x1A ends the job. */
  function AfterPage(page: Image, rest: seq<byte>): Option<seq<Image>>
    decreases |rest|
  {
    if rest == [] then None
    else if rest[0] == 0x1A then if rest == [0x1A] then Some([page]) else None
    else if rest[0] == 0x0C then
      match ReadPages(rest[1..])
      case None => None
      case Some(more) => Some([page] + more)
    else None
  }

  /** 400 times nothing, then `ESC @`, `ESC i a` and `ESC i S`. */
  predicate StartsJob(s: seq<byte>)
    requires |s| >= PREAMBLE_BYTES
  {
    && (forall i :: 0 <= i < 400 ==> s[i] == 0)
    && s[400..409] == [0x1B, 0x40, 0x1B, 0x69, 0x61, 0x01, 0x1B, 0x69, 0x53]
  }

  function ReadJob(s: seq<byte>): Option<seq<Image>> {
    if |s| < PREAMBLE_BYTES || !StartsJob(s) then None
    else ReadPages(s[PREAMBLE_BYTES..])
  }

  // ---------------------------------------------------------------------------
  // what the job is supposed to say
  // ---------------------------------------------------------------------------

  function SettingsFor(media: MediaSpec, autoCut: bool, height: nat, first: bool): Settings {
    Settings(KindCode(media.kind), media.widthMm, media.lengthMm, height, !first, autoCut, autoCut,
             media.FeedMarginForPrint())
  }

  /** The image carries the page's settings and, line by line, exactly the page's dots. */
  ghost predicate Depicts(media: MediaSpec, autoCut: bool, page: Page, first: bool, image: Image)
    requires page.Valid()
  {
    && image.settings == SettingsFor(media, autoCut, page.heightDots, first)
    && |image.lines| == page.heightDots
    && forall i :: 0 <= i < |image.lines| ==> ShowsRow(media, page, i, image.lines[i])
  }

  ghost predicate DepictsAll(media: MediaSpec, autoCut: bool, pages: seq<Page>, images: seq<Image>) {
    && |images| == |pages|
    && forall i :: 0 <= i < |pages| ==> pages[i].Valid() && Depicts(media, autoCut, pages[i], i == 0, images[i])
  }

  // ---------------------------------------------------------------------------
  // reading back
  // ---------------------------------------------------------------------------

  lemma {:induction false} LittleEndianRoundTrip(n: nat, width: nat)
    requires width == 2 ==> n < 0x1_0000
    requires width == 4 ==> n < 0x1_0000_0000
    requires width == 1 ==> n < 0x100
    requires width == 3 ==> n < 0x100_0000
    requires width <= 4 && (width == 0 ==> n == 0)
    ensures |LittleEndian(n, width)| == width
    ensures FromLittleEndian(LittleEndian(n, width)) == n
  {
    if width > 0 {
      LittleEndianRoundTrip(n / 256, width - 1);
      NatOfByteOf(n % 256);
      assert LittleEndian(n, width)[1..] == LittleEndian(n / 256, width - 1);
    }
  }

  lemma InformationReads(media: MediaSpec, height: u16, first: bool)
    ensures |PrintInformation(media, height, first)| == 13
    ensures ReadInformation(PrintInformation(media, height, first))
         == Some((KindCode(media.kind), media.widthMm, media.lengthMm, height, !first))
  {
    LittleEndianRoundTrip(height, 4);
    NatOfByteOf(media.widthMm);
    NatOfByteOf(media.lengthMm);
    assert PrintInformation(media, height, first)[7..11] == LittleEndian(height, 4);
  }

  lemma ModesRead(autoCut: bool)
    ensures ReadModes(ModeCommands(autoCut)) == Some((autoCut, autoCut))
  {
  }

  lemma MarginsRead(media: MediaSpec)
    ensures |Margins(media)| == 5
    ensures ReadMargins(Margins(media) + [0x4D, 0x02]) == Some(media.FeedMarginForPrint())
  {
    LittleEndianRoundTrip(media.FeedMarginForPrint(), 2);
    assert (Margins(media) + [0x4D, 0x02])[3..5] == LittleEndian(media.FeedMarginForPrint(), 2);
  }

  lemma SettingsRead(a: seq<byte>, b: seq<byte>, c: seq<byte>, d: seq<byte>)
    requires |a| == 13 && |b| == 12 && |c| == 5 && |d| == 2
    ensures |a + b + c + d| == HEADER_BYTES
    ensures (a + b + c + d)[..13] == a && (a + b + c + d)[13..25] == b && (a + b + c + d)[25..] == c + d
  {
  }

  lemma HeaderReads(media: MediaSpec, autoCut: bool, height: u16, first: bool)
    ensures |PageHeader(media, autoCut, height, first)| == HEADER_BYTES
    ensures ReadSettings(PageHeader(media, autoCut, height, first)) == Some(SettingsFor(media, autoCut, height, first))
  {
    InformationReads(media, height, first);
    ModesRead(autoCut);
    MarginsRead(media);
    SettingsRead(PrintInformation(media, height, first), ModeCommands(autoCut), Margins(media), [0x4D, 0x02]);
  }

  lemma RowReads(s: seq<byte>, count: nat, packed: seq<byte>, more: seq<byte>, lines: seq<seq<byte>>, rest: seq<byte>)
    requires lines != [] && |lines[0]| == BYTES_PER_ROW && IsPacked(lines[0], packed)
    requires count > 0 && ReadRows(more, count - 1) == Some((lines[1..], rest))
    requires s == Frame(packed) + more
    ensures ReadRows(s, count) == Some((lines, rest))
  {
    RoundTrip(lines[0], packed);
    SizeBound(lines[0], packed);
    NatOfByteOf(|packed|);
    assert s[3..3 + |packed|] == packed;
    assert s[3 + |packed|..] == more;
    assert [lines[0]] + lines[1..] == lines;
  }

  ghost predicate AllPacked(lines: seq<seq<byte>>, packed: seq<seq<byte>>) {
    && |lines| == |packed|
    && forall i :: 0 <= i < |lines| ==> |lines[i]| == BYTES_PER_ROW && IsPacked(lines[i], packed[i])
  }

  lemma AllPackedTail(lines: seq<seq<byte>>, packed: seq<seq<byte>>)
    requires AllPacked(lines, packed) && lines != []
    ensures |lines[0]| == BYTES_PER_ROW && IsPacked(lines[0], packed[0])
    ensures AllPacked(lines[1..], packed[1..])
  {
  }

  lemma {:induction false} RowsRead(lines: seq<seq<byte>>, count: nat, packed: seq<seq<byte>>, rest: seq<byte>)
    requires AllPacked(lines, packed) && count == |lines|
    ensures ReadRows(Frames(packed) + rest, count) == Some((lines, rest))
  {
    if lines == [] {
      assert Frames(packed) + rest == rest;
    } else {
      AllPackedTail(lines, packed);
      RowsRead(lines[1..], count - 1, packed[1..], rest);
      var s, more := Frames(packed) + rest, Frames(packed[1..]) + rest;
      Regroup(Frame(packed[0]), Frames(packed[1..]), rest);
      RowReads(s, count, packed[0], more, lines, rest);
    }
  }

  lemma PageReads(header: seq<byte>, settings: Settings, body: seq<byte>, lines: seq<seq<byte>>, rest: seq<byte>)
    requires |header| == HEADER_BYTES && ReadSettings(header) == Some(settings)
    requires ReadRows(body + rest, settings.lineCount) == Some((lines, rest))
    ensures ReadPages(header + body + rest) == AfterPage(Image(settings, lines), rest)
  {
    var s := header + body + rest;
    assert s[..HEADER_BYTES] == header;
    assert s[HEADER_BYTES..] == body + rest;
  }

  /** Whatever follows it, the part of a job for one page reads as that page. */
  ghost predicate ReadsAs(part: seq<byte>, image: Image) {
    forall rest :: ReadPages(part + rest) == AfterPage(image, rest)
  }

  ghost function ImageOf(media: MediaSpec, autoCut: bool, sheet: Sheet, first: bool): Image {
    Image(SettingsFor(media, autoCut, sheet.page.heightDots, first), sheet.lines)
  }

  lemma SheetReads(media: MediaSpec, autoCut: bool, sheet: Sheet, first: bool)
    requires sheet.Prints(media)
    ensures ReadsAs(SheetBytes(media, autoCut, sheet, first), ImageOf(media, autoCut, sheet, first))
  {
    var height := sheet.page.heightDots;
    var header, settings := PageHeader(media, autoCut, height, first), SettingsFor(media, autoCut, height, first);
    HeaderReads(media, autoCut, height, first);
    forall rest
      ensures ReadPages(header + Frames(sheet.packed) + rest) == AfterPage(Image(settings, sheet.lines), rest)
    {
      RowsRead(sheet.lines, height, sheet.packed, rest);
      PageReads(header, settings, Frames(sheet.packed), sheet.lines, rest);
    }
  }

  /** How `AfterPage` continues behind a terminator or a separator. */
  lemma TerminatorReads(image: Image)
    ensures AfterPage(image, [Terminator(true)]) == Some([image])
  {
  }

  lemma SeparatorReads(image: Image, rest: seq<byte>, tail: seq<byte>)
    requires rest == [Terminator(false)] + tail && ReadPages(tail).Some?
    ensures AfterPage(image, rest) == Some([image] + ReadPages(tail).value)
  {
    assert rest[1..] == tail;
  }

  lemma {:induction false} JoinedReads(parts: seq<seq<byte>>, images: seq<Image>, offset: nat, total: nat)
    requires parts != [] && total == offset + |parts| && |images| == |parts|
    requires forall i :: 0 <= i < |parts| ==> ReadsAs(parts[i], images[i])
    ensures ReadPages(Joined(parts, offset, total)) == Some(images)
  {
    var tail := Joined(parts[1..], offset + 1, total);
    var rest := [Terminator(offset + 1 == total)] + tail;
    Regroup(parts[0], [Terminator(offset + 1 == total)], tail);
    assert Joined(parts, offset, total) == parts[0] + rest;
    assert ReadsAs(parts[0], images[0]);
    if |parts| > 1 {
      JoinedReads(parts[1..], images[1..], offset + 1, total);
      SeparatorReads(images[0], rest, tail);
      assert images == [images[0]] + images[1..];
    } else {
      assert rest == [Terminator(true)];
      TerminatorReads(images[0]);
      assert images == [images[0]];
    }
  }

  ghost function ImagesOf(media: MediaSpec, autoCut: bool, sheets: seq<Sheet>): seq<Image> {
    seq(|sheets|, i requires 0 <= i < |sheets| => ImageOf(media, autoCut, sheets[i], i == 0))
  }

  lemma SheetsRead(media: MediaSpec, autoCut: bool, sheets: seq<Sheet>)
    requires sheets != [] && forall i :: 0 <= i < |sheets| ==> sheets[i].Prints(media)
    ensures ReadPages(Joined(SheetParts(media, autoCut, sheets), 0, |sheets|)) == Some(ImagesOf(media, autoCut, sheets))
  {
    var parts, images := SheetParts(media, autoCut, sheets), ImagesOf(media, autoCut, sheets);
    forall i | 0 <= i < |parts| ensures ReadsAs(parts[i], images[i]) {
      SheetReads(media, autoCut, sheets[i], i == 0);
    }
    JoinedReads(parts, images, 0, |sheets|);
  }

  lemma PreambleReads(s: seq<byte>, rest: seq<byte>)
    requires s == Preamble() + rest
    ensures |s| >= PREAMBLE_BYTES && StartsJob(s) && s[PREAMBLE_BYTES..] == rest
  {
    assert s[..400] == Fill(0, 400);
    forall i | 0 <= i < 400 ensures s[i] == 0 {
      assert s[i] == s[..400][i];
    }
  }

  lemma ImagesDepict(media: MediaSpec, autoCut: bool, sheets: seq<Sheet>, pages: seq<Page>)
    requires PrintsPages(media, sheets, pages)
    ensures DepictsAll(media, autoCut, pages, ImagesOf(media, autoCut, sheets))
  {
  }

  /** A job reads back as its settings and, dot for dot, its pages: every line of
    every page, in order, with the separator or terminator where it belongs. */
  lemma JobReadsBack(media: MediaSpec, autoCut: bool, pages: seq<Page>, job: seq<byte>)
    requires pages != [] && IsJob(media, autoCut, pages, job)
    ensures ReadJob(job).Some? && DepictsAll(media, autoCut, pages, ReadJob(job).value)
  {
    var sheets :| JobOf(media, autoCut, pages, job, sheets);
    PreambleReads(job, Joined(SheetParts(media, autoCut, sheets), 0, |pages|));
    SheetsRead(media, autoCut, sheets);
    ImagesDepict(media, autoCut, sheets, pages);
  }

  /** Two jobs with the same bytes agree on the cut setting, the media fields, the
    pages' lengths and every head line. */
  lemma UniquelyDecodable(media: MediaSpec, autoCut: bool, pages: seq<Page>,
                          media': MediaSpec, autoCut': bool, pages': seq<Page>, job: seq<byte>)
    requires pages != [] && pages' != []
    requires IsJob(media, autoCut, pages, job) && IsJob(media', autoCut', pages', job)
    ensures autoCut == autoCut' && |pages| == |pages'|
    ensures media.kind == media'.kind && media.widthMm == media'.widthMm && media.lengthMm == media'.lengthMm
    ensures media.FeedMarginForPrint() == media'.FeedMarginForPrint()
    ensures forall i :: 0 <= i < |pages| ==>
              pages[i].Valid() && pages'[i].Valid() && pages[i].heightDots == pages'[i].heightDots
    ensures forall i, k, line :: 0 <= i < |pages| && 0 <= k < pages[i].heightDots ==>
              (ShowsRow(media, pages[i], k, line) <==> ShowsRow(media', pages'[i], k, line))
  {
    JobReadsBack(media, autoCut, pages, job);
    JobReadsBack(media', autoCut', pages', job);
    var images := ReadJob(job).value;
    assert Depicts(media, autoCut, pages[0], true, images[0]) && Depicts(media', autoCut', pages'[0], true, images[0]);
    forall i, k, line | 0 <= i < |pages| && 0 <= k < pages[i].heightDots
      ensures ShowsRow(media, pages[i], k, line) <==> ShowsRow(media', pages'[i], k, line)
    {
      assert ShowsRow(media, pages[i], k, images[i].lines[k]) && ShowsRow(media', pages'[i], k, images[i].lines[k]);
      if ShowsRow(media, pages[i], k, line) { HeadLineIsUnique(media, pages[i], k, line, images[i].lines[k]); }
      if ShowsRow(media', pages'[i], k, line) { HeadLineIsUnique(media', pages'[i], k, line, images[i].lines[k]); }
    }
  }

  lemma HeadLineIsUnique(media: MediaSpec, page: Page, k: nat, line: seq<byte>, line': seq<byte>)
    requires page.Valid() && k < page.heightDots
    requires ShowsRow(media, page, k, line) && ShowsRow(media, page, k, line')
    ensures line == line'
  {
    DotsDetermineRow(line, line');
  }

  // ---------------------------------------------------------------------------
  // the encoder's output is determined
  // ---------------------------------------------------------------------------

  lemma SheetIsUnique(media: MediaSpec, a: Sheet, b: Sheet)
    requires a.page == b.page && a.Prints(media) && b.Prints(media)
    ensures a == b
  {
    forall i | 0 <= i < |a.lines| ensures a.lines[i] == b.lines[i] && a.packed[i] == b.packed[i] {
      HeadLineIsUnique(media, a.page, i, a.lines[i], b.lines[i]);
      PackedIsUnique(a.lines[i], a.packed[i], b.packed[i]);
    }
  }

  /** `IsJob` leaves the encoder no freedom: media, cut setting and pages fix every byte. */
  lemma JobIsUnique(media: MediaSpec, autoCut: bool, pages: seq<Page>, job: seq<byte>, job': seq<byte>)
    requires IsJob(media, autoCut, pages, job) && IsJob(media, autoCut, pages, job')
    ensures job == job'
  {
    var sheets :| JobOf(media, autoCut, pages, job, sheets);
    var sheets' :| JobOf(media, autoCut, pages, job', sheets');
    forall i | 0 <= i < |sheets| ensures sheets[i] == sheets'[i] {
      SheetIsUnique(media, sheets[i], sheets'[i]);
    }
    assert sheets == sheets';
  }
}
