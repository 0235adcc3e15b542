/** Image dimensions from the file header (src/common/upload/image-size.ts). */
module ImageSize {
  import opened Optional

  type Byte = b: int | 0 <= b < 256

  datatype Format = Png | Jpeg | Gif | Webp

  datatype Dimensions = Dimensions(width: nat, height: nat, format: Format)

  function BigEndian16(b: seq<Byte>, i: nat): nat
    requires i + 1 < |b|
  {
    b[i] as int * 256 + b[i + 1] as int
  }

  function BigEndian32(b: seq<Byte>, i: nat): nat
    requires i + 3 < |b|
  {
    BigEndian16(b, i) * 65536 + BigEndian16(b, i + 2)
  }

  function LittleEndian16(b: seq<Byte>, i: nat): nat
    requires i + 1 < |b|
  {
    b[i] as int + b[i + 1] as int * 256
  }

  function LittleEndian24(b: seq<Byte>, i: nat): nat
    requires i + 2 < |b|
  {
    LittleEndian16(b, i) + b[i + 2] as int * 65536
  }

  function LittleEndian32(b: seq<Byte>, i: nat): nat
    requires i + 3 < |b|
  {
    LittleEndian16(b, i) + LittleEndian16(b, i + 2) * 65536
  }

  // ---- JPEG markers, as the reader tells them apart ----

  predicate CarriesNoLength(marker: Byte) {
    marker == 0xd8 || marker == 0x01 || 0xd0 <= marker <= 0xd7
  }

  predicate StartsFrame(marker: Byte) {
    0xc0 <= marker <= 0xcf && marker != 0xc4 && marker != 0xc8 && marker != 0xcc
  }

  function After(s: seq<Byte>, n: nat): seq<Byte> {
    if n <= |s| then s[n..] else []
  }

  lemma AfterAfter(s: seq<Byte>, i: nat, n: nat)
    requires i <= |s|
    ensures After(After(s, i), n) == After(s, i + n)
  {
  }

  lemma ReadsAhead(b: seq<Byte>, i: nat, k: nat)
    requires i + k + 1 < |b|
    ensures |After(b, i)| == |b| - i && After(b, i)[k] == b[i + k]
    ensures BigEndian16(After(b, i), k) == BigEndian16(b, i + k)
  {
  }

  /** What the marker scan answers when these bytes are left. */
  ghost function Scan(s: seq<Byte>): Option<Dimensions>
    decreases |s|
  {
    if |s| <= 9 then None
    else if s[0] != 0xff then Scan(s[1..])
    else if CarriesNoLength(s[1]) then Scan(s[2..])
    else if StartsFrame(s[1]) then Some(Dimensions(BigEndian16(s, 7), BigEndian16(s, 5), Jpeg))
    else if BigEndian16(s, 2) < 2 then None
    else Scan(After(s, 2 + BigEndian16(s, 2)))
  }

  ghost function JpegSize(b: seq<Byte>): Option<Dimensions> {
    if |b| < 4 || b[0] != 0xff || b[1] != 0xd8 then None else Scan(b[2..])
  }

  /** What one pass of the scan at place i comes to. */
  lemma ScanStrayAt(b: seq<Byte>, i: nat)
    requires i + 9 < |b| && b[i] != 0xff
    ensures Scan(After(b, i)) == Scan(After(b, i + 1))
  {
    ReadsAhead(b, i, 0);
    AfterAfter(b, i, 1);
  }

  lemma ScanStandaloneAt(b: seq<Byte>, i: nat)
    requires i + 9 < |b| && b[i] == 0xff && CarriesNoLength(b[i + 1])
    ensures Scan(After(b, i)) == Scan(After(b, i + 2))
  {
    ReadsAhead(b, i, 0);
    ReadsAhead(b, i, 1);
    AfterAfter(b, i, 2);
  }

  lemma ScanFrameAt(b: seq<Byte>, i: nat)
    requires i + 9 < |b| && b[i] == 0xff && StartsFrame(b[i + 1])
    ensures Scan(After(b, i)) == Some(Dimensions(BigEndian16(b, i + 7), BigEndian16(b, i + 5), Jpeg))
  {
    ReadsAhead(b, i, 0);
    ReadsAhead(b, i, 1);
    ReadsAhead(b, i, 5);
    ReadsAhead(b, i, 7);
  }

  lemma ScanSegment(s: seq<Byte>, length: nat)
    requires |s| > 9 && s[0] == 0xff && !CarriesNoLength(s[1]) && !StartsFrame(s[1]) && BigEndian16(s, 2) == length
    ensures Scan(s) == if length < 2 then None else Scan(After(s, 2 + length))
  {
  }

  lemma ScanSegmentAt(b: seq<Byte>, i: nat, length: nat)
    requires i + 9 < |b| && b[i] == 0xff && !CarriesNoLength(b[i + 1]) && !StartsFrame(b[i + 1])
    requires BigEndian16(b, i + 2) == length
    ensures Scan(After(b, i)) == if length < 2 then None else Scan(After(b, i + 2 + length))
  {
    hide Scan;
    ReadsAhead(b, i, 0);
    ReadsAhead(b, i, 1);
    ReadsAhead(b, i, 2);
    ScanSegment(After(b, i), length);
    AfterAfter(b, i, 2 + length);
  }

  lemma ScanShort(b: seq<Byte>, i: nat)
    requires |b| <= i + 9
    ensures Scan(After(b, i)) == None
  {
  }

  /** The scan loop: every read is in bounds and every pass moves forward. */
  method ReadJpeg(b: seq<Byte>) returns (size: Option<Dimensions>)
    ensures size == JpegSize(b)
  {
    hide Scan;
    if |b| < 4 || b[0] != 0xff || b[1] != 0xd8 { return None; }
    var i := 2;
    while i + 9 < |b|
      invariant 2 <= i
      invariant Scan(After(b, i)) == JpegSize(b)
      decreases |b| - i
    {
      if b[i] != 0xff {
        ScanStrayAt(b, i);
        i := i + 1;
        continue;
      }
      var marker := b[i + 1];
      if CarriesNoLength(marker) {
        ScanStandaloneAt(b, i);
        i := i + 2;
        continue;
      }
      var length := BigEndian16(b, i + 2);
      if StartsFrame(marker) {
        ScanFrameAt(b, i);
        if i + 9 > |b| { return None; }
        return Some(Dimensions(BigEndian16(b, i + 7), BigEndian16(b, i + 5), Jpeg));
      }
      ScanSegmentAt(b, i, length);
      if length < 2 { return None; }
      i := i + 2 + length;
    }
    ScanShort(b, i);
    return None;
  }

  // ---- The other formats: straight reads ----

  const PNG_MAGIC: seq<Byte> := [0x89, 0x50, 0x4e, 0x47, 0x0d, 0x0a, 0x1a, 0x0a]
  const IHDR: seq<Byte> := [0x49, 0x48, 0x44, 0x52]
  const GIF87A: seq<Byte> := [0x47, 0x49, 0x46, 0x38, 0x37, 0x61]
  const GIF89A: seq<Byte> := [0x47, 0x49, 0x46, 0x38, 0x39, 0x61]
  const RIFF: seq<Byte> := [0x52, 0x49, 0x46, 0x46]
  const WEBP: seq<Byte> := [0x57, 0x45, 0x42, 0x50]
  const VP8: seq<Byte> := [0x56, 0x50, 0x38, 0x20]
  const VP8L: seq<Byte> := [0x56, 0x50, 0x38, 0x4c]
  const VP8X: seq<Byte> := [0x56, 0x50, 0x38, 0x58]

  /** The text read at a place as ASCII, which leaves out each byte's highest bit. */
  predicate Says(b: seq<Byte>, at: nat, text: seq<Byte>)
    requires at + |text| <= |b|
  {
    forall k :: 0 <= k < |text| ==> b[at + k] as int % 128 == text[k]
  }

  lemma FirstSaid(b: seq<Byte>, text: seq<Byte>)
    requires 0 < |text| <= |b|
    ensures Says(b, 0, text) ==> b[0] as int % 128 == text[0]
  {
    if Says(b, 0, text) { assert b[0 + 0] as int % 128 == text[0]; }
  }

  function PngSize(b: seq<Byte>): Option<Dimensions> {
    if |b| < 24 || b[..8] != PNG_MAGIC || !Says(b, 12, IHDR) then None
    else Some(Dimensions(BigEndian32(b, 16), BigEndian32(b, 20), Png))
  }

  function GifSize(b: seq<Byte>): Option<Dimensions> {
    if |b| < 10 || (!Says(b, 0, GIF87A) && !Says(b, 0, GIF89A)) then None
    else Some(Dimensions(LittleEndian16(b, 6), LittleEndian16(b, 8), Gif))
  }

  function WebpSize(b: seq<Byte>): Option<Dimensions> {
    if |b| < 30 || !Says(b, 0, RIFF) || !Says(b, 8, WEBP) then None
    else if Says(b, 12, VP8) then
      Some(Dimensions(LittleEndian16(b, 26) % 0x4000, LittleEndian16(b, 28) % 0x4000, Webp))
    else if Says(b, 12, VP8L) then
      var bits := LittleEndian32(b, 21);
      Some(Dimensions(bits % 0x4000 + 1, bits / 0x4000 % 0x4000 + 1, Webp))
    else if Says(b, 12, VP8X) then
      Some(Dimensions(LittleEndian24(b, 24) + 1, LittleEndian24(b, 27) + 1, Webp))
    else None
  }

  /** What one reader says of a buffer. */
  ghost function SizeBy(format: Format, b: seq<Byte>): Option<Dimensions> {
    match format
    case Png => PngSize(b)
    case Jpeg => JpegSize(b)
    case Gif => GifSize(b)
    case Webp => WebpSize(b)
  }

  predicate Sound(size: Option<Dimensions>) {
    size.Some? && size.value.width > 0 && size.value.height > 0
  }

  /** The readers in the order they are tried; a zero side is not an answer. */
  const READERS: seq<Format> := [Png, Jpeg, Gif, Webp]

  ghost function FirstSound(b: seq<Byte>, n: nat): Option<Dimensions>
    requires n <= 4
    decreases 4 - n
  {
    if n == 4 then None
    else if Sound(SizeBy(READERS[n], b)) then SizeBy(READERS[n], b)
    else FirstSound(b, n + 1)
  }

  ghost function ImageSizeOf(b: seq<Byte>): Option<Dimensions> {
    if |b| < 10 then None else FirstSound(b, 0)
  }

  method ReadSize(buffer: seq<Byte>) returns (size: Option<Dimensions>)
    ensures size == ImageSizeOf(buffer)
  {
    if |buffer| < 10 { return None; }
    for n := 0 to 4
      invariant FirstSound(buffer, n) == FirstSound(buffer, 0)
    {
      match READERS[n] {
        case Png => size := PngSize(buffer);
        case Jpeg => size := ReadJpeg(buffer);
        case Gif => size := GifSize(buffer);
        case Webp => size := WebpSize(buffer);
      }
      if Sound(size) { return; }
    }
    return None;
  }

  /** Whichever reader gives a non-zero size gives the answer, so the order of
      the readers does not matter. */
  lemma AnyReaderDecides(b: seq<Byte>, f: Format)
    requires |b| >= 10
    ensures Sound(SizeBy(f, b)) ==> ImageSizeOf(b) == SizeBy(f, b)
    ensures (forall g: Format :: !Sound(SizeBy(g, b))) ==> ImageSizeOf(b) == None
  {
    ReadersExclude(b);
  }

  /** No buffer is read by two readers. */
  lemma ReadersExclude(b: seq<Byte>)
    ensures forall f, g :: SizeBy(f, b).Some? && SizeBy(g, b).Some? ==> f == g
  {
    if |b| >= 10 {
      assert b[..8] == PNG_MAGIC ==> b[0] == PNG_MAGIC[0] by { assert b[..8][0] == b[0]; }
      FirstSaid(b, GIF87A);
      FirstSaid(b, GIF89A);
      FirstSaid(b, RIFF);
    }
  }

  // ---- Printed JPEG streams (ITU-T T.81, B.1.1 and B.2.2) ----

  /** What may stand between the start of image and the frame header. */
  datatype Piece =
    | Stray(x: Byte)
    | Standalone(marker: Byte)
    | Segment(marker: Byte, payload: seq<Byte>)

  /** Markers without a length: TEM, RST0 to RST7 and SOI. */
  predicate IsStandalone(m: Byte) {
    m in {0x01, 0xd0, 0xd1, 0xd2, 0xd3, 0xd4, 0xd5, 0xd6, 0xd7, 0xd8}
  }

  /** Markers of a frame header: SOF0 to SOF15, of which DHT, JPG and DAC take three places. */
  predicate IsFrame(m: Byte) {
    m in {0xc0, 0xc1, 0xc2, 0xc3, 0xc5, 0xc6, 0xc7, 0xc9, 0xca, 0xcb, 0xcd, 0xce, 0xcf}
  }

  lemma MarkerKinds(m: Byte)
    ensures CarriesNoLength(m) <==> IsStandalone(m)
    ensures StartsFrame(m) <==> IsFrame(m)
    ensures StartsFrame(m) ==> !CarriesNoLength(m)
  {
  }

  /** Any other marker has a length; the reader takes a fill byte for one. */
  predicate Printable(p: Piece) {
    match p
    case Stray(x) => x != 0xff
    case Standalone(m) => IsStandalone(m)
    case Segment(m, payload) => !IsStandalone(m) && !IsFrame(m) && |payload| + 2 < 65536
  }

  function Print16(n: nat): seq<Byte>
    requires n < 65536
  {
    [n / 256, n % 256]
  }

  function PrintPiece(p: Piece): seq<Byte>
    requires Printable(p)
  {
    match p
    case Stray(x) => [x]
    case Standalone(m) => [0xff, m]
    case Segment(m, payload) => [0xff, m] + Print16(|payload| + 2) + payload
  }

  ghost predicate AllPrintable(pieces: seq<Piece>) {
    forall i :: 0 <= i < |pieces| ==> Printable(pieces[i])
  }

  function PrintPieces(pieces: seq<Piece>): seq<Byte>
    requires forall i :: 0 <= i < |pieces| ==> Printable(pieces[i])
  {
    if pieces == [] then [] else PrintPiece(pieces[0]) + PrintPieces(pieces[1..])
  }

  datatype FrameHeader = FrameHeader(marker: Byte, length: nat, precision: Byte, height: nat, width: nat)

  predicate PrintableHeader(h: FrameHeader) {
    IsFrame(h.marker) && h.length < 65536 && h.height < 65536 && h.width < 65536
  }

  function PrintHeader(h: FrameHeader): (b: seq<Byte>)
    requires PrintableHeader(h)
    ensures |b| == 9
  {
    [0xff, h.marker] + Print16(h.length) + [h.precision] + Print16(h.height) + Print16(h.width)
  }

  /** From the frame header on, the scan answers if a byte follows the header. */
  lemma ScanAtHeader(h: FrameHeader, tail: seq<Byte>)
    requires PrintableHeader(h)
    ensures Scan(PrintHeader(h) + tail) == if tail != [] then Some(Dimensions(h.width, h.height, Jpeg)) else None
  {
    hide StartsFrame, CarriesNoLength, IsFrame;
    MarkerKinds(h.marker);
  }

  /** One piece is stepped over exactly. */
  lemma ScanPastPiece(p: Piece, after: seq<Byte>)
    requires Printable(p) && |after| >= 9
    ensures Scan(PrintPiece(p) + after) == Scan(after)
  {
    hide StartsFrame, CarriesNoLength, IsFrame, IsStandalone;
    var s := PrintPiece(p) + after;
    match p
    case Stray(x) => assert s[1..] == after;
    case Standalone(m) =>
      MarkerKinds(m);
      assert s[2..] == after;
    case Segment(m, payload) =>
      MarkerKinds(m);
      assert s[2] == (|payload| + 2) / 256 && s[3] == (|payload| + 2) % 256;
      assert BigEndian16(s, 2) == |payload| + 2;
      assert After(s, 4 + |payload|) == after;
  }

  lemma {:induction false} ScanPastPieces(pieces: seq<Piece>, after: seq<Byte>)
    requires AllPrintable(pieces) && |after| >= 9
    ensures Scan(PrintPieces(pieces) + after) == Scan(after)
  {
    if pieces == [] {
      assert PrintPieces(pieces) + after == after;
    } else {
      var first, rest := PrintPiece(pieces[0]), PrintPieces(pieces[1..]);
      assert PrintPieces(pieces) + after == first + (rest + after);
      ScanPastPiece(pieces[0], rest + after);
      ScanPastPieces(pieces[1..], after);
    }
  }

  lemma JpegBody(body: seq<Byte>)
    requires |body| >= 2
    ensures JpegSize([0xff, 0xd8] + body) == Scan(body)
  {
  }

  function Stream(pieces: seq<Piece>, h: FrameHeader, tail: seq<Byte>): seq<Byte>
    requires forall i :: 0 <= i < |pieces| ==> Printable(pieces[i])
    requires PrintableHeader(h)
  {
    [0xff, 0xd8] + PrintPieces(pieces) + PrintHeader(h) + tail
  }

  lemma PrintedStreamScans(pieces: seq<Piece>, h: FrameHeader, tail: seq<Byte>)
    requires AllPrintable(pieces) && PrintableHeader(h)
    ensures JpegSize(Stream(pieces, h, tail))
         == if tail != [] then Some(Dimensions(h.width, h.height, Jpeg)) else None
  {
    var after := PrintHeader(h) + tail;
    assert Stream(pieces, h, tail) == [0xff, 0xd8] + (PrintPieces(pieces) + after);
    JpegBody(PrintPieces(pieces) + after);
    ScanPastPieces(pieces, after);
    ScanAtHeader(h, tail);
  }

  lemma OnlyJpegBegins(b: seq<Byte>)
    requires |b| >= 10 && b[0] == 0xff
    ensures SizeBy(Png, b) == None && SizeBy(Gif, b) == None && SizeBy(Webp, b) == None
  {
    assert |b| >= 24 ==> b[..8][0] == 0xff;
    FirstSaid(b, GIF87A);
    FirstSaid(b, GIF89A);
    FirstSaid(b, RIFF);
  }

  /** A printed stream reads back as its frame's size, exactly when something
      follows the nine header bytes and neither side is zero. */
  lemma PrintedStreamReads(pieces: seq<Piece>, h: FrameHeader, tail: seq<Byte>)
    requires AllPrintable(pieces) && PrintableHeader(h)
    ensures ImageSizeOf(Stream(pieces, h, tail))
         == if tail != [] && h.width > 0 && h.height > 0
            then Some(Dimensions(h.width, h.height, Jpeg)) else None
  {
    var b := Stream(pieces, h, tail);
    PrintedStreamScans(pieces, h, tail);
    AnyReaderDecides(b, Jpeg);
    assert b[0] == 0xff;
    OnlyJpegBegins(b);
  }

  lemma Print16Reads(b: seq<Byte>, i: nat)
    requires i + 1 < |b|
    ensures BigEndian16(b, i) < 65536 && Print16(BigEndian16(b, i)) == [b[i], b[i + 1]]
  {
  }

  ghost predicate IsStream(b: seq<Byte>, pieces: seq<Piece>, h: FrameHeader, tail: seq<Byte>) {
    && AllPrintable(pieces) && PrintableHeader(h) && tail != []
    && b == PrintPieces(pieces) + PrintHeader(h) + tail
  }

  lemma SegmentSplits(s: seq<Byte>, n: nat)
    requires 4 <= n <= |s|
    ensures s == [s[0], s[1]] + [s[2], s[3]] + s[4..n] + s[n..]
  {
  }

  lemma {:induction false} SegmentAhead(s: seq<Byte>) returns (p: Piece, rest: seq<Byte>)
    requires |s| > 9 && s[0] == 0xff && !CarriesNoLength(s[1]) && !StartsFrame(s[1]) && Scan(s).Some?
    ensures Printable(p) && s == PrintPiece(p) + rest && Scan(rest) == Scan(s) && |rest| < |s|
  {
    var length := BigEndian16(s, 2);
    ScanSegment(s, length);
    assert Scan([]) == None;
    hide StartsFrame, CarriesNoLength, IsFrame, IsStandalone, Scan, BigEndian16, Print16;
    MarkerKinds(s[1]);
    Print16Reads(s, 2);
    SegmentSplits(s, 2 + length);
    p, rest := Segment(s[1], s[4..2 + length]), s[2 + length..];
  }

  /** What the first piece is when the scan goes on behind it. */
  lemma {:induction false} PieceAhead(s: seq<Byte>) returns (p: Piece, rest: seq<Byte>)
    requires |s| > 9 && !(s[0] == 0xff && StartsFrame(s[1])) && Scan(s).Some?
    ensures Printable(p) && s == PrintPiece(p) + rest && Scan(rest) == Scan(s) && |rest| < |s|
  {
    hide StartsFrame, CarriesNoLength, IsFrame, IsStandalone;
    MarkerKinds(s[1]);
    if s[0] != 0xff {
      p, rest := Stray(s[0]), s[1..];
    } else if CarriesNoLength(s[1]) {
      p, rest := Standalone(s[1]), s[2..];
    } else {
      p, rest := SegmentAhead(s);
    }
  }

  lemma HeaderAhead(s: seq<Byte>) returns (h: FrameHeader, tail: seq<Byte>)
    requires |s| > 9 && s[0] == 0xff && StartsFrame(s[1])
    ensures PrintableHeader(h) && tail != [] && s == PrintHeader(h) + tail
  {
    hide StartsFrame, IsFrame, CarriesNoLength, IsStandalone;
    MarkerKinds(s[1]);
    h, tail := FrameHeader(s[1], BigEndian16(s, 2), s[4], BigEndian16(s, 5), BigEndian16(s, 7)), s[9..];
    Print16Reads(s, 2);
    Print16Reads(s, 5);
    Print16Reads(s, 7);
  }

  lemma PieceInFront(p: Piece, rest: seq<Byte>, pieces: seq<Piece>, h: FrameHeader, tail: seq<Byte>)
    requires Printable(p) && IsStream(rest, pieces, h, tail)
    ensures IsStream(PrintPiece(p) + rest, [p] + pieces, h, tail)
  {
    hide Printable, PrintableHeader, PrintPiece, PrintHeader;
    var more := [p] + pieces;
    assert more[1..] == pieces && more[0] == p;
    assert PrintPieces(more) == PrintPiece(p) + PrintPieces(pieces);
    var first, others, header := PrintPiece(p), PrintPieces(pieces), PrintHeader(h);
    assert first + (others + header + tail) == first + others + header + tail;
  }

  lemma HeaderIsStream(h: FrameHeader, tail: seq<Byte>)
    requires PrintableHeader(h) && tail != []
    ensures IsStream(PrintHeader(h) + tail, [], h, tail)
  {
    hide PrintableHeader, PrintHeader;
    assert [] + PrintHeader(h) == PrintHeader(h);
  }

  lemma {:induction false} ScannedIsStream(s: seq<Byte>) returns (pieces: seq<Piece>, h: FrameHeader, tail: seq<Byte>)
    requires Scan(s).Some?
    ensures IsStream(s, pieces, h, tail)
    decreases |s|
  {
    assert |s| > 9;
    hide Scan, PrintPiece, PrintHeader, StartsFrame, Printable, PrintableHeader, IsStream;
    if s[0] == 0xff && StartsFrame(s[1]) {
      pieces := [];
      h, tail := HeaderAhead(s);
      HeaderIsStream(h, tail);
    } else {
      var p, rest := PieceAhead(s);
      var others;
      others, h, tail := ScannedIsStream(rest);
      pieces := [p] + others;
      PieceInFront(p, rest, others, h, tail);
    }
  }

  lemma JpegIsRead(b: seq<Byte>, pieces: seq<Piece>, h: FrameHeader, tail: seq<Byte>)
    requires |b| >= 2 && b[0] == 0xff && b[1] == 0xd8 && IsStream(b[2..], pieces, h, tail)
    ensures JpegSize(b) == Some(Dimensions(h.width, h.height, Jpeg)) && |b| >= 10
  {
    hide JpegSize;
    PrintedStreamScans(pieces, h, tail);
    assert b == [0xff, 0xd8] + b[2..];
    assert [0xff, 0xd8] + (PrintPieces(pieces) + PrintHeader(h) + tail) == Stream(pieces, h, tail);
  }

  /** A start of image, pieces, a frame header with these sides, and a tail. */
  ghost predicate IsJpeg(b: seq<Byte>, pieces: seq<Piece>, h: FrameHeader, tail: seq<Byte>, d: Dimensions) {
    && |b| >= 2 && b[0] == 0xff && b[1] == 0xd8 && IsStream(b[2..], pieces, h, tail)
    && h.width == d.width && h.height == d.height
  }

  /** Exactly the printed streams of these sides, both above zero, are answered with them. */
  lemma JpegAnswers(b: seq<Byte>, d: Dimensions)
    requires d.format == Jpeg
    ensures ImageSizeOf(b) == Some(d)
            <==> d.width > 0 && d.height > 0 && exists pieces, h, tail :: IsJpeg(b, pieces, h, tail, d)
  {
    hide ImageSizeOf, Scan, IsStream;
    FirstIsOne(b, d);
    if JpegSize(b) == Some(d) {
      var pieces, h, tail := ScannedIsStream(b[2..]);
      JpegIsRead(b, pieces, h, tail);
      assert IsJpeg(b, pieces, h, tail, d);
    }
    if pieces, h, tail :| IsJpeg(b, pieces, h, tail, d) {
      JpegIsRead(b, pieces, h, tail);
    }
  }

  /** An answer is what its format's reader says. */
  lemma FirstIsOne(b: seq<Byte>, d: Dimensions)
    ensures ImageSizeOf(b) == Some(d) <==>
              |b| >= 10 && d.width > 0 && d.height > 0 && SizeBy(d.format, b) == Some(d)
  {
    hide PngSize, JpegSize, GifSize, WebpSize;
    if |b| >= 10 {
      FormatsAnswer(b);
      AnyReaderDecides(b, d.format);
    }
  }

  lemma {:induction false} ScanAnswersJpeg(s: seq<Byte>)
    ensures Scan(s).Some? ==> Scan(s).value.format == Jpeg
    decreases |s|
  {
    if Scan(s).Some? && !(s[0] == 0xff && StartsFrame(s[1])) {
      var p, rest := PieceAhead(s);
      ScanAnswersJpeg(rest);
    }
  }

  lemma FormatsAnswer(b: seq<Byte>)
    ensures forall f: Format :: SizeBy(f, b).Some? ==> SizeBy(f, b).value.format == f
  {
    if |b| >= 2 { ScanAnswersJpeg(b[2..]); }
  }

  // ---- Headers of the other formats, byte by byte ----

  /** A byte as a number. */
  ghost function At(b: seq<Byte>, i: nat): int
    requires i < |b|
  {
    b[i]
  }

  /** Four bytes are the ASCII codes given, the highest bit of each left out. */
  ghost predicate Reads4(b: seq<Byte>, at: nat, w: Byte, x: Byte, y: Byte, z: Byte) {
    && at + 4 <= |b| && b[at] % 128 == w && b[at + 1] % 128 == x && b[at + 2] % 128 == y && b[at + 3] % 128 == z
  }

  lemma Says4(b: seq<Byte>, at: nat, text: seq<Byte>)
    requires at + 4 <= |b| && |text| == 4
    ensures Says(b, at, text) <==> Reads4(b, at, text[0], text[1], text[2], text[3])
  {
    if Reads4(b, at, text[0], text[1], text[2], text[3]) {
      assert forall k :: 0 <= k < 4 ==> b[at + k] as int % 128 == text[k];
    }
    if Says(b, at, text) { assert b[at + 0] as int % 128 == text[0]; }
  }

  /** A PNG answer: the signature, IHDR, and sides of four bytes, highest first. */
  lemma PngAnswers(b: seq<Byte>, d: Dimensions)
    requires d.format == Png
    ensures ImageSizeOf(b) == Some(d)
            <==> && |b| >= 24 && b[..8] == [0x89, 0x50, 0x4e, 0x47, 0x0d, 0x0a, 0x1a, 0x0a]
                 && Reads4(b, 12, 0x49, 0x48, 0x44, 0x52) && d.width > 0 && d.height > 0
                 && d.width == At(b, 16) * 16_777_216 + At(b, 17) * 65_536 + At(b, 18) * 256 + At(b, 19)
                 && d.height == At(b, 20) * 16_777_216 + At(b, 21) * 65_536 + At(b, 22) * 256 + At(b, 23)
  {
    hide ImageSizeOf, Says;
    FirstIsOne(b, d);
    if |b| >= 24 { Says4(b, 12, IHDR); }
  }

  /** A GIF answer: GIF87a or GIF89a, and sides of two bytes, lowest first. */
  lemma GifAnswers(b: seq<Byte>, d: Dimensions)
    requires d.format == Gif
    ensures ImageSizeOf(b) == Some(d)
            <==> && |b| >= 10 && Reads4(b, 0, 0x47, 0x49, 0x46, 0x38)
                 && b[4] % 128 in {0x37, 0x39} && b[5] % 128 == 0x61 && d.width > 0 && d.height > 0
                 && d.width == At(b, 6) + At(b, 7) * 256 && d.height == At(b, 8) + At(b, 9) * 256
  {
    hide ImageSizeOf, Says;
    FirstIsOne(b, d);
    if |b| >= 10 {
      Says6(b, GIF87A);
      Says6(b, GIF89A);
    }
  }

  lemma Says6(b: seq<Byte>, text: seq<Byte>)
    requires 6 <= |b| && |text| == 6
    ensures Says(b, 0, text)
            <==> Reads4(b, 0, text[0], text[1], text[2], text[3]) && b[4] % 128 == text[4] && b[5] % 128 == text[5]
  {
    if Says(b, 0, text) {
      assert b[0 + 0] as int % 128 == text[0] && b[0 + 1] as int % 128 == text[1];
      assert b[0 + 2] as int % 128 == text[2] && b[0 + 3] as int % 128 == text[3];
      assert b[0 + 4] as int % 128 == text[4] && b[0 + 5] as int % 128 == text[5];
    }
    if Reads4(b, 0, text[0], text[1], text[2], text[3]) && b[4] % 128 == text[4] && b[5] % 128 == text[5] {
      assert forall k :: 0 <= k < 6 ==> b[0 + k] as int % 128 == text[k];
    }
  }

  /** Fourteen bits of a lossy WebP's two bytes, lowest first. */
  ghost predicate LossySides(b: seq<Byte>, d: Dimensions)
    requires |b| >= 30
  {
    d.width == At(b, 26) + At(b, 27) % 64 * 256 && d.height == At(b, 28) + At(b, 29) % 64 * 256
  }

  /** Fourteen bits each out of four bytes, lowest first, for the sides less one. */
  ghost predicate LosslessSides(b: seq<Byte>, d: Dimensions)
    requires |b| >= 30
  {
    && d.width == At(b, 21) + At(b, 22) % 64 * 256 + 1
    && d.height == At(b, 22) / 64 + At(b, 23) * 4 + At(b, 24) % 16 * 1024 + 1
  }

  /** Three bytes each, lowest first, for the sides less one. */
  ghost predicate ExtendedSides(b: seq<Byte>, d: Dimensions)
    requires |b| >= 30
  {
    && d.width == At(b, 24) + At(b, 25) * 256 + At(b, 26) * 65_536 + 1
    && d.height == At(b, 27) + At(b, 28) * 256 + At(b, 29) * 65_536 + 1
  }

  /** A WebP answer: RIFF, WEBP, and sides as the kind of image has them. */
  lemma WebpAnswers(b: seq<Byte>, d: Dimensions)
    requires d.format == Webp
    ensures ImageSizeOf(b) == Some(d)
            <==> && |b| >= 30 && Reads4(b, 0, 0x52, 0x49, 0x46, 0x46) && Reads4(b, 8, 0x57, 0x45, 0x42, 0x50)
                 && d.width > 0 && d.height > 0
                 && (|| (Reads4(b, 12, 0x56, 0x50, 0x38, 0x20) && LossySides(b, d))
                     || (Reads4(b, 12, 0x56, 0x50, 0x38, 0x4c) && LosslessSides(b, d))
                     || (Reads4(b, 12, 0x56, 0x50, 0x38, 0x58) && ExtendedSides(b, d)))
  {
    hide ImageSizeOf, Says;
    FirstIsOne(b, d);
    if |b| >= 30 {
      Says4(b, 0, RIFF);
      Says4(b, 8, WEBP);
      Says4(b, 12, VP8);
      Says4(b, 12, VP8L);
      Says4(b, 12, VP8X);
      LosslessBits(b[21], b[22], b[23], b[24]);
      FourteenBits(b[26], b[27]);
      FourteenBits(b[28], b[29]);
    }
  }

  lemma FourteenBits(x: int, y: int)
    requires 0 <= x < 256 && 0 <= y < 256
    ensures (x + y * 256) % 0x4000 == x + y % 64 * 256
  {
    assert x + y * 256 == y / 64 * 0x4000 + (x + y % 64 * 256);
  }

  lemma SplitAt14(low: int, high: nat)
    requires 0 <= low < 0x4000
    ensures (low + 0x4000 * high) % 0x4000 == low && (low + 0x4000 * high) / 0x4000 == high
  {
  }

  lemma LosslessBits(w: int, x: int, y: int, z: int)
    requires 0 <= w < 256 && 0 <= x < 256 && 0 <= y < 256 && 0 <= z < 256
    ensures var bits := w + x * 256 + (y + z * 256) * 65536;
            bits % 0x4000 == w + x % 64 * 256 && bits / 0x4000 % 0x4000 == x / 64 + y * 4 + z % 16 * 1024
  {
    var x0, x1, z0, z1 := x % 64, x / 64, z % 16, z / 16;
    assert x == x0 + 64 * x1 && z == z0 + 16 * z1;
    SplitAt14(w + x0 * 256, x1 + y * 4 + z * 1024);
    SplitAt14(x1 + y * 4 + z0 * 1024, z1);
  }

  /** Fill bytes, of which T.81 allows any number before a marker. */
  function Fill(k: nat): (fill: seq<Byte>)
    ensures |fill| == k
  {
    seq(k, _ => 0xff)
  }

  /** The length of the segment the reader believes the first of k fill bytes starts. */
  function FalseLength(k: nat, h: FrameHeader): nat {
    if k == 1 then h.marker * 256 + h.length / 256
    else if k == 2 then 0xff * 256 + h.marker
    else 0xffff
  }

  lemma FillReads(k: nat, h: FrameHeader, tail: seq<Byte>)
    requires PrintableHeader(h) && k >= 1
    ensures var s := Fill(k) + (PrintHeader(h) + tail);
            |s| > 9 && s[0] == 0xff && s[1] == 0xff && BigEndian16(s, 2) == FalseLength(k, h)
  {
    var header := PrintHeader(h);
    assert header[0] == 0xff && header[1] == h.marker && header[2] == h.length / 256;
    var s := Fill(k) + (header + tail);
    assert s[2] == if k <= 2 then header[2 - k] else 0xff;
    assert s[3] == if k <= 3 then header[3 - k] else 0xff;
  }

  lemma ScanAtFill(k: nat, h: FrameHeader, tail: seq<Byte>)
    requires PrintableHeader(h) && k >= 1
    ensures var s := Fill(k) + (PrintHeader(h) + tail);
            Scan(s) == Scan(After(s, 2 + FalseLength(k, h)))
  {
    FillReads(k, h, tail);
    ScanSegment(Fill(k) + (PrintHeader(h) + tail), FalseLength(k, h));
  }

  function FilledStream(pieces: seq<Piece>, k: nat, h: FrameHeader, tail: seq<Byte>): seq<Byte>
    requires forall i :: 0 <= i < |pieces| ==> Printable(pieces[i])
    requires PrintableHeader(h)
  {
    [0xff, 0xd8] + (PrintPieces(pieces) + (Fill(k) + (PrintHeader(h) + tail)))
  }

  /** A lap is the longest segment the reader can misread: two bytes of marker and a length of 0xffff. */
  const LAP: nat := 65_537

  /** Whole laps of fill bytes are skipped exactly. */
  lemma OneLap(k: nat, after: seq<Byte>)
    requires |after| >= 9 && k >= LAP
    ensures var s := Fill(k) + after;
            && |s| > 9 && s[0] == 0xff && s[1] == 0xff && BigEndian16(s, 2) == 0xffff
            && After(s, LAP) == Fill(k - LAP) + after
  {
  }

  lemma {:induction false} LapsAreSkipped(k: nat, after: seq<Byte>)
    requires |after| >= 9
    ensures Scan(Fill(k) + after) == Scan(Fill(k % LAP) + after)
  {
    hide Scan;
    if k >= LAP {
      OneLap(k, after);
      ScanSegment(Fill(k) + after, 0xffff);
      LapsAreSkipped(k - LAP, after);
      LessALap(k);
    }
  }

  lemma LessALap(k: nat)
    requires k >= LAP
    ensures (k - LAP) % LAP == k % LAP
  {
  }

  lemma {:induction false} ScanAtRest(k: nat, h: FrameHeader, tail: seq<Byte>)
    requires PrintableHeader(h) && k < LAP
    ensures var size := Scan(Fill(k) + (PrintHeader(h) + tail));
            && (k == 0 ==> size == if tail != [] then Some(Dimensions(h.width, h.height, Jpeg)) else None)
            && (k >= 1 ==> size == Scan(After(Fill(k) + (PrintHeader(h) + tail), 2 + FalseLength(k, h))))
            && (k >= 1 && k + |tail| <= 49_154 ==> size == None)
  {
    if k == 0 {
      assert Fill(k) + (PrintHeader(h) + tail) == PrintHeader(h) + tail;
      ScanAtHeader(h, tail);
    } else {
      ScanAtFill(k, h, tail);
    }
  }

  /** The reader takes fill bytes before the frame's marker for a segment and
      goes on behind the length it misreads. Of their number only the rest after
      whole laps matters. While that rest and the tail are at most 49,154 bytes,
      the frame's size is read exactly when the rest is nothing and something
      follows the header; a longer tail is scanned from the place given. */
  lemma FillBytesHideFrame(pieces: seq<Piece>, k: nat, h: FrameHeader, tail: seq<Byte>)
    requires AllPrintable(pieces) && PrintableHeader(h)
    ensures var size := JpegSize(FilledStream(pieces, k, h, tail));
            var rest := k % LAP;
            && (rest + |tail| <= 49_154 ==>
                  && (size == Some(Dimensions(h.width, h.height, Jpeg)) <==> rest == 0 && tail != [])
                  && (size.Some? ==> rest == 0))
            && (rest == 0 ==> size == if tail != [] then Some(Dimensions(h.width, h.height, Jpeg)) else None)
            && (rest >= 1 ==> size == Scan(After(Fill(rest) + (PrintHeader(h) + tail), 2 + FalseLength(rest, h))))
  {
    hide Scan;
    var after := PrintHeader(h) + tail;
    JpegBody(PrintPieces(pieces) + (Fill(k) + after));
    ScanPastPieces(pieces, Fill(k) + after);
    LapsAreSkipped(k, after);
    ScanAtRest(k % LAP, h, tail);
  }
}
