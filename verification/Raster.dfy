/** The raster command encoder: page bitmaps in, printer bytes out. */
module Raster {
  import opened Bytes
  import opened Media
  import opened TiffPackBits
  import opened Wrappers

  const ESC: byte := 0x1B
  const INVALIDATE_BYTES: nat := 400

  /** The growing byte vector every `push_*` function appends to. */
  class Stream {
    var bytes: seq<byte>

    constructor ()
      ensures bytes == []
    {
      bytes := [];
    }

    method Push(b: byte)
      modifies this
      ensures bytes == old(bytes) + [b]
    {
      bytes := bytes + [b];
    }

    method Extend(more: seq<byte>)
      modifies this
      ensures bytes == old(bytes) + more
    {
      bytes := bytes + more;
    }
  }

  // ---------------------------------------------------------------------------
  // the bytes of a job, piece by piece
  // ---------------------------------------------------------------------------

  function Preamble(): seq<byte> {
    Fill(0, INVALIDATE_BYTES) + [ESC, 0x40, ESC, 0x69, 0x61, 0x01, ESC, 0x69, 0x53]
  }

  function LittleEndian(n: nat, width: nat): seq<byte> {
    if width == 0 then [] else [ByteOf(n % 256)] + LittleEndian(n / 256, width - 1)
  }

  function KindCode(kind: MediaKind): byte {
    match kind
    case Continuous => 0x0A
    case DieCut => 0x0B
  }

  function PrintInformation(media: MediaSpec, height: nat, first: bool): seq<byte> {
    [ESC, 0x69, 0x7A, 0xCE, KindCode(media.kind), ByteOf(media.widthMm), ByteOf(media.lengthMm)]
    + LittleEndian(height, 4) + [if first then 0 else 1, 0x00]
  }

  function ModeCommands(autoCut: bool): seq<byte> {
    [ESC, 0x69, 0x4D, if autoCut then 0x40 else 0, ESC, 0x69, 0x41, 1, ESC, 0x69, 0x4B, if autoCut then 0x08 else 0]
  }

  function Margins(media: MediaSpec): seq<byte> {
    [ESC, 0x69, 0x64] + LittleEndian(media.FeedMarginForPrint(), 2)
  }

  function PageHeader(media: MediaSpec, autoCut: bool, height: nat, first: bool): seq<byte> {
    PrintInformation(media, height, first) + ModeCommands(autoCut) + Margins(media) + [0x4D, 0x02]
  }

  function Frame(packed: seq<byte>): seq<byte> {
    [0x67, 0x00, ByteOf(|packed|)] + packed
  }

  function Frames(packed: seq<seq<byte>>): seq<byte> {
    if packed == [] then [] else Frame(packed[0]) + Frames(packed[1..])
  }

  function Terminator(last: bool): byte {
    if last then 0x1A else 0x0C
  }

  // ---------------------------------------------------------------------------
  // what a print-head line shows
  // ---------------------------------------------------------------------------

  /** Dot `p` of the line is black exactly where the page row puts a black dot. */
  ghost predicate IsHeadLine(line: seq<byte>, row: seq<byte>, width: u16, left: nat)
    requires RowBytes(width) <= |row|
  {
    && |line| == BYTES_PER_ROW
    && forall p :: 0 <= p < PINS ==>
         (DotAt(line, p) <==> left <= p < left + width && DotAt(row, p - left))
  }

  /** A page together with the head lines it prints and their packed forms. */
  datatype Sheet = Sheet(page: Page, lines: seq<seq<byte>>, packed: seq<seq<byte>>) {
    ghost predicate Prints(media: MediaSpec) {
      && page.Valid()
      && |lines| == page.heightDots
      && LinesPrinted(media, page, lines, packed)
    }
  }

  /** The first lines of a page and their packed forms. */
  ghost predicate LinesPrinted(media: MediaSpec, page: Page, lines: seq<seq<byte>>, packed: seq<seq<byte>>)
    requires page.Valid()
  {
    && |lines| == |packed| <= page.heightDots
    && forall i :: 0 <= i < |lines| ==> ShowsRow(media, page, i, lines[i]) && IsPacked(lines[i], packed[i])
  }

  ghost predicate ShowsRow(media: MediaSpec, page: Page, i: nat, line: seq<byte>)
    requires page.Valid() && i < page.heightDots
  {
    IsHeadLine(line, page.Row(i), page.widthDots, LeftOffset(media, page.widthDots))
  }

  lemma LineAppended(media: MediaSpec, page: Page, lines: seq<seq<byte>>, packed: seq<seq<byte>>,
                     line: seq<byte>, compressed: seq<byte>)
    requires page.Valid() && LinesPrinted(media, page, lines, packed) && |lines| < page.heightDots
    requires ShowsRow(media, page, |lines|, line) && IsPacked(line, compressed)
    ensures LinesPrinted(media, page, lines + [line], packed + [compressed])
  {
  }

  ghost function SheetBytes(media: MediaSpec, autoCut: bool, sheet: Sheet, first: bool): seq<byte> {
    PageHeader(media, autoCut, sheet.page.heightDots, first) + Frames(sheet.packed)
  }

  ghost function SheetParts(media: MediaSpec, autoCut: bool, sheets: seq<Sheet>): (parts: seq<seq<byte>>)
    ensures |parts| == |sheets|
  {
    seq(|sheets|, i requires 0 <= i < |sheets| => SheetBytes(media, autoCut, sheets[i], i == 0))
  }

  /** Parts `offset`, `offset + 1`, ... of a job of `total` parts, each with the byte that follows it. */
  function Joined(parts: seq<seq<byte>>, offset: nat, total: nat): seq<byte> {
    if parts == [] then []
    else parts[0] + [Terminator(offset + 1 == total)] + Joined(parts[1..], offset + 1, total)
  }

  ghost predicate PrintsPages(media: MediaSpec, sheets: seq<Sheet>, pages: seq<Page>) {
    && |sheets| == |pages|
    && forall i :: 0 <= i < |sheets| ==> sheets[i].page == pages[i] && sheets[i].Prints(media)
  }

  ghost predicate JobOf(media: MediaSpec, autoCut: bool, pages: seq<Page>, bytes: seq<byte>, sheets: seq<Sheet>) {
    && PrintsPages(media, sheets, pages)
    && bytes == Preamble() + Joined(SheetParts(media, autoCut, sheets), 0, |pages|)
  }

  /** `bytes` is the print job for `pages`; `JobIsUnique` shows there is only one. */
  ghost predicate IsJob(media: MediaSpec, autoCut: bool, pages: seq<Page>, bytes: seq<byte>) {
    exists sheets :: JobOf(media, autoCut, pages, bytes, sheets)
  }

  lemma {:induction false} FramesAppend(packed: seq<seq<byte>>, next: seq<byte>)
    ensures Frames(packed + [next]) == Frames(packed) + Frame(next)
  {
    if packed == [] {
      assert Frames([next]) == Frame(next) + Frames([]);
    } else {
      assert (packed + [next])[1..] == packed[1..] + [next];
      FramesAppend(packed[1..], next);
    }
  }

  lemma FrameAppended(before: seq<byte>, packed: seq<seq<byte>>, next: seq<byte>)
    ensures before + Frames(packed) + [0x67, 0x00, ByteOf(|next|)] + next == before + Frames(packed + [next])
  {
    FramesAppend(packed, next);
    assert before + Frames(packed) + [0x67, 0x00, ByteOf(|next|)] + next == before + (Frames(packed) + Frame(next));
  }

  lemma {:induction false} JoinedAppend(parts: seq<seq<byte>>, next: seq<byte>, offset: nat, total: nat)
    ensures Joined(parts + [next], offset, total)
         == Joined(parts, offset, total) + (next + [Terminator(offset + |parts| + 1 == total)])
  {
    if parts == [] {
      assert Joined([next][1..], offset + 1, total) == [];
    } else {
      assert (parts + [next])[1..] == parts[1..] + [next];
      JoinedAppend(parts[1..], next, offset + 1, total);
    }
  }

  // ---------------------------------------------------------------------------
  // the encoder
  // ---------------------------------------------------------------------------

  method EncodeJob(media: MediaSpec, autoCut: bool, pages: seq<Page>) returns (r: Result<seq<byte>, RasterError>)
    requires forall page :: page in pages ==> page.Valid()
    ensures pages == [] ==> r == Failure(NoPages)
    ensures pages != [] ==> r.Success? && IsJob(media, autoCut, pages, r.value)
  {
    if pages == [] {
      return Failure(NoPages);
    }

    var out := new Stream();
    PushPreamble(out);

    var lastIndex := |pages| - 1;
    ghost var sheets: seq<Sheet> := [];
    for index := 0 to |pages|
      invariant PrintsPages(media, sheets, pages[..index])
      invariant out.bytes == Preamble() + Joined(SheetParts(media, autoCut, sheets), 0, |pages|)
    {
      var page := pages[index];
      ghost var before := out.bytes;
      PushPrintInformation(out, media, page, index);
      PushModeCommands(out, autoCut);
      PushMargins(out, media);
      PushCompression(out);
      ghost var sheet := PushRasterRows(out, media, page);
      out.Push(if index == lastIndex then 0x1A else 0x0C);
      SheetAppended(before, media, autoCut, sheet, index == 0, index == lastIndex);
      JobAppended(media, autoCut, sheets, sheet, |pages|);
      PagesAppended(media, sheets, pages, index, sheet);
      sheets := sheets + [sheet];
    }
    assert pages[..|pages|] == pages;
    assert JobOf(media, autoCut, pages, out.bytes, sheets);
    r := Success(out.bytes);
  }

  lemma Regroup(a: seq<byte>, b: seq<byte>, c: seq<byte>)
    ensures a + b + c == a + (b + c)
  {
  }

  lemma SheetAppended(before: seq<byte>, media: MediaSpec, autoCut: bool, sheet: Sheet, first: bool, last: bool)
    ensures before + PrintInformation(media, sheet.page.heightDots, first) + ModeCommands(autoCut) + Margins(media)
            + [0x4D, 0x02] + Frames(sheet.packed) + [if last then 0x1A else 0x0C]
         == before + (SheetBytes(media, autoCut, sheet, first) + [Terminator(last)])
  {
    var a, b, c := PrintInformation(media, sheet.page.heightDots, first), ModeCommands(autoCut), Margins(media);
    var d, e: seq<byte> := [0x4D, 0x02], [Terminator(last)];
    assert before + a + b + c + d + Frames(sheet.packed) + e == before + (a + b + c + d + Frames(sheet.packed) + e);
  }

  lemma JobAppended(media: MediaSpec, autoCut: bool, sheets: seq<Sheet>, sheet: Sheet, total: nat)
    ensures Preamble() + Joined(SheetParts(media, autoCut, sheets), 0, total)
            + (SheetBytes(media, autoCut, sheet, |sheets| == 0) + [Terminator(|sheets| + 1 == total)])
         == Preamble() + Joined(SheetParts(media, autoCut, sheets + [sheet]), 0, total)
  {
    var parts, part := SheetParts(media, autoCut, sheets), SheetBytes(media, autoCut, sheet, |sheets| == 0);
    assert SheetParts(media, autoCut, sheets + [sheet]) == parts + [part];
    JoinedAppend(parts, part, 0, total);
    Regroup(Preamble(), Joined(parts, 0, total), part + [Terminator(|sheets| + 1 == total)]);
  }

  lemma PagesAppended(media: MediaSpec, sheets: seq<Sheet>, pages: seq<Page>, index: nat, sheet: Sheet)
    requires index < |pages| && PrintsPages(media, sheets, pages[..index])
    requires sheet.page == pages[index] && sheet.Prints(media)
    ensures PrintsPages(media, sheets + [sheet], pages[..index + 1])
  {
  }

  method PushPreamble(out: Stream)
    modifies out
    ensures out.bytes == old(out.bytes) + Preamble()
  {
    out.Extend(Fill(0, INVALIDATE_BYTES));
    out.Extend([ESC, 0x40]);
    out.Extend([ESC, 0x69, 0x61, 0x01]);
    out.Extend([ESC, 0x69, 0x53]);
  }

  method PushPrintInformation(out: Stream, media: MediaSpec, page: Page, pageIndex: nat)
    modifies out
    ensures out.bytes == old(out.bytes) + PrintInformation(media, page.heightDots, pageIndex == 0)
  {
    out.Extend([ESC, 0x69, 0x7A]);
    out.Push(0x80 | 0x02 | 0x04 | 0x08 | 0x40);
    out.Push(KindCode(media.kind));
    out.Push(ByteOf(media.widthMm));
    out.Push(ByteOf(media.lengthMm));
    out.Extend(LittleEndian(page.heightDots, 4));
    out.Push(if pageIndex == 0 then 0 else 1);
    out.Push(0x00);
  }

  method PushModeCommands(out: Stream, autoCut: bool)
    modifies out
    ensures out.bytes == old(out.bytes) + ModeCommands(autoCut)
  {
    var cut: byte := if autoCut then 1 else 0;
    out.Extend([ESC, 0x69, 0x4D]);
    out.Push(cut << 6);
    out.Extend([ESC, 0x69, 0x41]);
    out.Push(1);
    out.Extend([ESC, 0x69, 0x4B]);
    out.Push(cut << 3);
  }

  method PushMargins(out: Stream, media: MediaSpec)
    modifies out
    ensures out.bytes == old(out.bytes) + Margins(media)
  {
    out.Extend([ESC, 0x69, 0x64]);
    out.Extend(LittleEndian(media.FeedMarginForPrint(), 2));
  }

  method PushCompression(out: Stream)
    modifies out
    ensures out.bytes == old(out.bytes) + [0x4D, 0x02]
  {
    out.Extend([0x4D, 0x02]);
  }

  method PushRasterRows(out: Stream, media: MediaSpec, page: Page) returns (ghost sheet: Sheet)
    requires page.Valid()
    modifies out
    ensures sheet.page == page && sheet.Prints(media)
    ensures out.bytes == old(out.bytes) + Frames(sheet.packed)
  {
    var leftOffset := LeftOffset(media, page.widthDots);
    PlacementFits(media, page);

    ghost var lines: seq<seq<byte>>, packed: seq<seq<byte>> := [], [];
    var line := new byte[BYTES_PER_ROW];
    for index := 0 to page.heightDots
      invariant |lines| == |packed| == index
      invariant LinesPrinted(media, page, lines, packed)
      invariant out.bytes == old(out.bytes) + Frames(packed)
    {
      forall i | 0 <= i < line.Length { line[i] := 0; }
      ghost var blank := line[..];
      BlitRow(line, page.Row(index), page.widthDots, leftOffset);
      ghost var shown := line[..];
      BlankOverlaid(blank, shown, page.Row(index), page.widthDots, leftOffset);

      var compressed := PackBits(line[..]);
      SizeBound(shown, compressed);
      out.Extend([0x67, 0x00, ByteOf(|compressed|)]);
      out.Extend(compressed);
      FrameAppended(old(out.bytes), packed, compressed);
      LineAppended(media, page, lines, packed, shown, compressed);
      lines, packed := lines + [shown], packed + [compressed];
    }
    sheet := Sheet(page, lines, packed);
  }

  /** `after` is `before` with the first `x` dots of the row drawn over it from `left` on. */
  ghost predicate Overlaid(before: seq<byte>, after: seq<byte>, row: seq<byte>, left: nat, x: nat)
    requires |before| == BYTES_PER_ROW && x <= 8 * |row|
  {
    && |after| == BYTES_PER_ROW
    && forall p :: 0 <= p < PINS ==>
         (DotAt(after, p) <==> DotAt(before, p) || (left <= p < left + x && DotAt(row, p - left)))
  }

  /** Copies a page row into a head line, dot by dot, on top of what the line holds. */
  method BlitRow(line: array<byte>, row: seq<byte>, widthDots: u16, leftOffset: u16)
    requires line.Length == BYTES_PER_ROW && RowBytes(widthDots) <= |row|
    requires leftOffset + widthDots <= PINS
    modifies line
    ensures Overlaid(old(line[..]), line[..], row, leftOffset, widthDots)
  {
    for x := 0 to widthDots
      invariant Overlaid(old(line[..]), line[..], row, leftOffset, x)
    {
      if row[x / 8] & (0x80 >> (x % 8)) == 0 {
        continue;
      }
      var target := leftOffset + x;
      ghost var before := line[..];
      line[target / 8] := line[target / 8] | (0x80 >> (target % 8));
      DotWritten(before, line[..], target);
    }
  }

  lemma BlankOverlaid(blank: seq<byte>, line: seq<byte>, row: seq<byte>, width: u16, left: nat)
    requires RowBytes(width) <= |row| && left + width <= PINS
    requires |blank| == BYTES_PER_ROW && forall i :: 0 <= i < |blank| ==> blank[i] == 0
    requires Overlaid(blank, line, row, left, width)
    ensures IsHeadLine(line, row, width, left)
  {
    forall p | 0 <= p < PINS ensures !DotAt(blank, p) {
    }
  }

  /** Setting one bit of a line changes one dot. */
  lemma DotWritten(before: seq<byte>, after: seq<byte>, target: nat)
    requires |before| == BYTES_PER_ROW && target < PINS
    requires after == before[target / 8 := before[target / 8] | (0x80 >> (target % 8))]
    ensures forall p :: 0 <= p < PINS ==> (DotAt(after, p) <==> p == target || DotAt(before, p))
  {
    forall p | 0 <= p < PINS ensures DotAt(after, p) <==> p == target || DotAt(before, p) {
      MaskSetsDot(before[target / 8], target % 8, p % 8);
    }
  }
}
