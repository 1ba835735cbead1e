/** Bottom-up 32-bit device-independent bitmaps over an empty mask, with a reader. */
module Bitmap {
  import opened Wrappers
  import opened Arithmetic
  import opened Sequences
  import opened ByteLayout

  /** A pixel as Qt gives it: alpha, red, green and blue from the highest byte down. */
  type Argb = p: nat | p < 0x1_0000_0000

  /** An image of `width` columns; row 0 is the top. */
  datatype Image = Image(width: nat, rows: seq<seq<Argb>>) {
    predicate Valid() {
      forall y | 0 <= y < |rows| :: |rows[y]| == width
    }
  }

  const BITMAPINFOHEADER: seq<nat> := [4, 4, 4, 2, 2, 4, 4, 4, 4, 4, 4]
  const DIB_HEADER_SIZE := 40
  const MAX_SIGNED := 0x7FFF_FFFF

  // ----- pixels

  function PixelBytes(p: Argb): (b: seq<Byte>)
    ensures |b| == 4
  {
    [p % 256, p / 0x100 % 256, p / 0x1_0000 % 256, p / 0x100_0000 % 256]
  }

  function PixelOf(b: seq<Byte>): Argb
    requires |b| == 4
  {
    b[3] as int * 0x100_0000 + b[2] as int * 0x1_0000 + b[1] as int * 0x100 + b[0] as int
  }

  lemma PixelRoundTrip(p: Argb)
    ensures PixelOf(PixelBytes(p)) == p
  {
    assert p / 0x1_0000 == p / 0x100 / 0x100;
    assert p / 0x100_0000 == p / 0x1_0000 / 0x100;
  }

  function RowBytes(row: seq<Argb>): (b: seq<Byte>)
    ensures |b| == 4 * |row|
  {
    if row == [] then [] else PixelBytes(row[0]) + RowBytes(row[1..])
  }

  /** The rows from the bottom one up. */
  function BottomUp(rows: seq<seq<Argb>>): seq<Byte> {
    if rows == [] then [] else RowBytes(rows[|rows| - 1]) + BottomUp(rows[..|rows| - 1])
  }

  lemma {:induction false} RowOfMore(row: seq<Argb>, p: Argb)
    ensures RowBytes(row + [p]) == RowBytes(row) + PixelBytes(p)
  {
    if row == [] {
      assert [p][1..] == [];
    } else {
      assert (row + [p])[1..] == row[1..] + [p];
      RowOfMore(row[1..], p);
      Associative(PixelBytes(row[0]), RowBytes(row[1..]), PixelBytes(p));
    }
  }

  lemma {:induction false} BottomUpOfMore(row: seq<Argb>, rows: seq<seq<Argb>>)
    ensures BottomUp([row] + rows) == BottomUp(rows) + RowBytes(row)
  {
    var all := [row] + rows;
    if rows == [] {
      assert all == [row] && all[..0] == [];
    } else {
      assert all[|all| - 1] == rows[|rows| - 1] && all[..|all| - 1] == [row] + rows[..|rows| - 1];
      BottomUpOfMore(row, rows[..|rows| - 1]);
      Associative(RowBytes(rows[|rows| - 1]), BottomUp(rows[..|rows| - 1]), RowBytes(row));
    }
  }

  function ReadRow(b: seq<Byte>, width: nat): seq<Argb>
    requires |b| == 4 * width
  {
    if width == 0 then [] else [PixelOf(b[..4])] + ReadRow(b[4..], width - 1)
  }

  lemma {:induction false} RowRoundTrip(row: seq<Argb>)
    ensures ReadRow(RowBytes(row), |row|) == row
  {
    if row != [] {
      var b := RowBytes(row);
      assert b[..4] == PixelBytes(row[0]) && b[4..] == RowBytes(row[1..]);
      PixelRoundTrip(row[0]);
      RowRoundTrip(row[1..]);
    }
  }

  /** `height` rows of `width` pixels, the first stored being the bottom one, and what follows them. */
  function ReadRows(b: seq<Byte>, width: nat, height: nat): Option<(seq<seq<Argb>>, seq<Byte>)> {
    if height == 0 then Some(([], b))
    else if |b| < 4 * width then None
    else match ReadRows(b[4 * width..], width, height - 1)
      case None => None
      case Some((above, rest)) => Some((above + [ReadRow(b[..4 * width], width)], rest))
  }

  lemma LastRowComesFirst(above: seq<seq<Argb>>, last: seq<Argb>, rest: seq<Byte>)
    ensures var b := BottomUp(above + [last]) + rest;
            |b| >= 4 * |last| && b[..4 * |last|] == RowBytes(last) && b[4 * |last|..] == BottomUp(above) + rest
  {
    assert (above + [last])[..|above|] == above;
    Associative(RowBytes(last), BottomUp(above), rest);
  }

  lemma {:induction false} RowsRoundTrip(width: nat, rows: seq<seq<Argb>>, rest: seq<Byte>)
    requires Image(width, rows).Valid()
    ensures ReadRows(BottomUp(rows) + rest, width, |rows|) == Some((rows, rest))
  {
    if rows == [] {
      assert BottomUp(rows) + rest == rest;
    } else {
      var above, last := rows[..|rows| - 1], rows[|rows| - 1];
      LastRowComesFirst(above, last, rest);
      RowsRoundTrip(width, above, rest);
      RowRoundTrip(last);
      assert above + [last] == rows;
    }
  }

  lemma {:induction false} BottomUpLength(width: nat, rows: seq<seq<Argb>>)
    requires Image(width, rows).Valid()
    ensures |BottomUp(rows)| == 4 * (width * |rows|)
  {
    if rows != [] {
      var above := rows[..|rows| - 1];
      BottomUpLength(width, above);
      OneMore(|above|, width);
    }
  }

  // ----- the transparency mask

  function MaskStride(width: nat): nat {
    (width + 31) / 32 * 4
  }

  /** The stride is the least multiple of four bytes that holds one bit per column. */
  lemma MaskStrideIsLeast(width: nat, stride: nat)
    ensures MaskStride(width) % 4 == 0 && 8 * MaskStride(width) >= width
    ensures stride % 4 == 0 && 8 * stride >= width ==> MaskStride(width) <= stride
  {
    if stride % 4 == 0 && 8 * stride >= width {
      var words := stride / 4;
      assert stride == 4 * words;
    }
  }

  lemma {:induction false} PixelInRow(row: seq<Argb>, x: nat)
    requires x < |row|
    ensures RowBytes(row)[4 * x..4 * x + 4] == PixelBytes(row[x])
  {
    if x > 0 {
      PixelInRow(row[1..], x - 1);
      assert RowBytes(row)[4..] == RowBytes(row[1..]);
      assert RowBytes(row)[4 * x..4 * x + 4] == RowBytes(row[1..])[4 * (x - 1)..4 * (x - 1) + 4];
    }
  }

  /** Where the pixel at column `x` of row `y` stands: the bottom row comes first. */
  function PixelOffset(width: nat, height: nat, x: nat, y: nat): nat
    requires x < width && y < height
  {
    4 * (width * (height - 1 - y) + x)
  }

  lemma OffsetsByRow(width: nat, height: nat, x: nat, y: nat)
    requires x < width && y <= height
    ensures y == height ==> PixelOffset(width, height + 1, x, y) == 4 * x
    ensures y < height ==> PixelOffset(width, height + 1, x, y) == 4 * width + PixelOffset(width, height, x, y)
  {
    if y < height {
      OneMore(height - 1 - y, width);
      assert height - 1 - y + 1 == height - y;
    }
  }

  lemma {:induction false} PixelStandsAtItsOffset(width: nat, rows: seq<seq<Argb>>, x: nat, y: nat)
    requires Image(width, rows).Valid() && x < width && y < |rows|
    ensures var at := PixelOffset(width, |rows|, x, y);
            at + 4 <= |BottomUp(rows)| && BottomUp(rows)[at..at + 4] == PixelBytes(rows[y][x])
  {
    var above, last := rows[..|rows| - 1], rows[|rows| - 1];
    OffsetsByRow(width, |above|, x, y);
    if y == |above| {
      PixelInRow(last, x);
      SliceOfFirst(RowBytes(last), BottomUp(above), 4 * x, 4 * x + 4);
    } else {
      PixelStandsAtItsOffset(width, above, x, y);
      var at := PixelOffset(width, |above|, x, y);
      SliceOfSecond(RowBytes(last), BottomUp(above), at, at + 4);
    }
  }

  function Zeros(n: nat): (b: seq<Byte>)
    ensures |b| == n && forall i | 0 <= i < n :: b[i] == 0
  {
    seq(n, _ => 0)
  }

  // ----- the bitmap

  function DibFields(image: Image, imageSize: nat): seq<nat> {
    [DIB_HEADER_SIZE, image.width, 2 * |image.rows|, 1, 32, 0, imageSize, 0, 0, 0, 0]
  }

  /** The header's fields can hold the image; packing it is an error otherwise. */
  predicate Representable(image: Image) {
    && image.Valid() && image.width <= MAX_SIGNED && 2 * |image.rows| <= MAX_SIGNED
    && 4 * (image.width * |image.rows|) + MaskStride(image.width) * |image.rows| < 0x1_0000_0000
  }

  /** The image a bitmap holds: None unless it is an uncompressed bottom-up 32-bit bitmap over an all-zero mask. */
  function ReadDib(b: seq<Byte>): Option<Image> {
    match Unpack(BITMAPINFOHEADER, b)
    case None => None
    case Some((f, body)) => if IsDibHeader(f, |body|) then ReadBitmap(f[1], f[2] / 2, body) else None
  }

  predicate IsDibHeader(f: seq<nat>, size: nat) {
    |f| == 11 && f[0] == DIB_HEADER_SIZE && f[2] % 2 == 0 && f[3] == 1 && f[4] == 32 && f[5] == 0 && f[6] == size
    && f[7] == f[8] == f[9] == f[10] == 0
  }

  function ReadBitmap(width: nat, height: nat, body: seq<Byte>): Option<Image> {
    match ReadRows(body, width, height)
    case None => None
    case Some((rows, mask)) => if mask == Zeros(MaskStride(width) * height) then Some(Image(width, rows)) else None
  }

  lemma HeaderFits(image: Image, imageSize: nat)
    requires Representable(image) && imageSize < 0x1_0000_0000
    ensures Fits(BITMAPINFOHEADER, DibFields(image, imageSize))
  {
    FieldLimits();
  }

  /** What follows the header. */
  function DibBody(image: Image): seq<Byte> {
    BottomUp(image.rows) + Zeros(MaskStride(image.width) * |image.rows|)
  }

  lemma BodyFits(image: Image)
    requires Representable(image)
    ensures |DibBody(image)| < 0x1_0000_0000
  {
    BottomUpLength(image.width, image.rows);
  }

  lemma BodyRoundTrip(image: Image)
    requires image.Valid()
    ensures ReadRows(DibBody(image), image.width, |image.rows|)
         == Some((image.rows, Zeros(MaskStride(image.width) * |image.rows|)))
  {
    RowsRoundTrip(image.width, image.rows, Zeros(MaskStride(image.width) * |image.rows|));
  }

  lemma BitmapRoundTrip(image: Image)
    requires image.Valid()
    ensures ReadBitmap(image.width, |image.rows|, DibBody(image)) == Some(image)
  {
    BodyRoundTrip(image);
  }

  lemma HeaderRoundTrip(image: Image, body: seq<Byte>)
    requires Fits(BITMAPINFOHEADER, DibFields(image, |body|))
    ensures ReadDib(Pack(BITMAPINFOHEADER, DibFields(image, |body|)) + body)
         == ReadBitmap(image.width, |image.rows|, body)
  {
    PackRoundTrip(BITMAPINFOHEADER, DibFields(image, |body|), body);
    FieldsAreHeader(image, |body|);
  }

  lemma FieldsAreHeader(image: Image, size: nat)
    ensures var f := DibFields(image, size);
            IsDibHeader(f, size) && f[1] == image.width && f[2] / 2 == |image.rows|
  {
    var f := DibFields(image, size);
    HalfOfTwice(|image.rows|);
    assert f[2] == 2 * |image.rows| && f[7] == 0 && f[8] == 0 && f[9] == 0 && f[10] == 0;
  }

  lemma HalfOfTwice(n: nat)
    ensures 2 * n % 2 == 0 && 2 * n / 2 == n
  {
  }

  lemma DibRoundTrip(image: Image)
    requires Representable(image)
    ensures var body := DibBody(image);
            && Fits(BITMAPINFOHEADER, DibFields(image, |body|))
            && ReadDib(Pack(BITMAPINFOHEADER, DibFields(image, |body|)) + body) == Some(image)
  {
    var body := DibBody(image);
    BodyFits(image);
    HeaderFits(image, |body|);
    HeaderRoundTrip(image, body);
    BitmapRoundTrip(image);
  }

  /** The loop over one row, each pixel as blue, green, red, alpha. */
  method AppendRow(before: seq<Byte>, row: seq<Argb>) returns (pixels: seq<Byte>)
    ensures pixels == before + RowBytes(row)
  {
    pixels := before;
    for x := 0 to |row|
      invariant pixels == before + RowBytes(row[..x])
    {
      var argb := row[x];
      var alpha := argb / 0x100_0000 % 0x100;
      var red := argb / 0x1_0000 % 0x100;
      var green := argb / 0x100 % 0x100;
      var blue := argb % 0x100;
      assert row[..x + 1] == row[..x] + [argb];
      RowOfMore(row[..x], argb);
      Associative(before, RowBytes(row[..x]), PixelBytes(argb));
      pixels := pixels + [blue, green, red, alpha];
    }
    assert row[..|row|] == row;
  }

  /** The pixel loops: rows from the bottom up, each pixel as blue, green, red, alpha. */
  method PixelData(image: Image) returns (pixels: seq<Byte>)
    requires image.Valid()
    ensures pixels == BottomUp(image.rows)
  {
    var height := |image.rows|;
    pixels := [];
    for y := height downto 0
      invariant pixels == BottomUp(image.rows[y..])
    {
      var row := image.rows[y];
      pixels := AppendRow(pixels, row);
      assert image.rows[y..] == [row] + image.rows[y + 1..];
      BottomUpOfMore(row, image.rows[y + 1..]);
    }
    assert image.rows[0..] == image.rows;
  }

  // ----- the bytes at their offsets

  /** A pixel's four bytes: blue, green, red, alpha. */
  predicate PixelAt(b: seq<Byte>, at: nat, p: Argb) {
    && at + 4 <= |b|
    && b[at] == p % 0x100 && b[at + 1] == p / 0x100 % 0x100
    && b[at + 2] == p / 0x1_0000 % 0x100 && b[at + 3] == p / 0x100_0000 % 0x100
  }

  /** The 40 bytes of the header: size, width, twice the height, planes, bit count, no compression, image size, zeros. */
  predicate HeaderStands(dib: seq<Byte>, image: Image) {
    && |dib| >= 40
    && Dword(dib, 0) == 40 && Dword(dib, 4) == image.width && Dword(dib, 8) == 2 * |image.rows|
    && Word(dib, 12) == 1 && Word(dib, 14) == 32 && Dword(dib, 16) == 0 && Dword(dib, 20) == |dib| - 40
    && Dword(dib, 24) == 0 && Dword(dib, 28) == 0 && Dword(dib, 32) == 0 && Dword(dib, 36) == 0
  }

  /** The pixel at column `x` of row `y` stands behind those of all the rows below it and those to its left. */
  predicate PixelsStand(dib: seq<Byte>, image: Image)
    requires image.Valid()
  {
    var w, h := image.width, |image.rows|;
    forall y, x | 0 <= y < h && 0 <= x < w :: PixelAt(dib, 40 + PixelOffset(w, h, x, y), image.rows[y][x])
  }

  /** The bitmap byte by byte: the header, the pixels from the bottom row up, and a mask of zeros. */
  predicate IsBitmapOf(dib: seq<Byte>, image: Image)
    requires image.Valid()
  {
    var w, h := image.width, |image.rows|;
    && HeaderStands(dib, image)
    && |dib| == 40 + Area(4 * w, h) + Area(MaskStride(w), h)
    && PixelsStand(dib, image)
    && forall i | 40 + Area(4 * w, h) <= i < |dib| :: dib[i] == 0
  }

  /** The bytes of `height` rows of `stride` bytes. */
  function Area(stride: nat, height: nat): nat {
    stride * height
  }

  /** Fields of these eleven widths stand at these offsets. */
  predicate HasHeaderOffsets(widths: seq<nat>) {
    widths == [4, 4, 4, 2, 2, 4, 4, 4, 4, 4, 4] && HasFirstOffsets(widths) && HasLastOffsets(widths)
  }

  predicate HasFirstOffsets(widths: seq<nat>)
    requires |widths| == 11
  {
    && Total(widths[..0]) == 0 && Total(widths[..1]) == 4 && Total(widths[..2]) == 8 && Total(widths[..3]) == 12
    && Total(widths[..4]) == 14 && Total(widths[..5]) == 16 && Total(widths[..6]) == 20
  }

  predicate HasLastOffsets(widths: seq<nat>)
    requires |widths| == 11
  {
    && Total(widths[..7]) == 24 && Total(widths[..8]) == 28 && Total(widths[..9]) == 32 && Total(widths[..10]) == 36
    && Total(widths) == 40
  }

  lemma HeaderOffsets(widths: seq<nat>)
    requires widths == BITMAPINFOHEADER
    ensures HasHeaderOffsets(widths)
  {
    FirstOffsets(widths);
    LastOffsets(widths);
  }

  lemma FirstOffsets(widths: seq<nat>)
    requires |widths| == 11 && widths[0] == widths[1] == widths[2] == widths[5] == 4 && widths[3] == widths[4] == 2
    ensures HasFirstOffsets(widths)
  {
    NextOffset(widths, 0); NextOffset(widths, 1); NextOffset(widths, 2);
    NextOffset(widths, 3); NextOffset(widths, 4); NextOffset(widths, 5);
  }

  lemma LastOffsets(widths: seq<nat>)
    requires |widths| == 11 && widths[6] == widths[7] == widths[8] == widths[9] == widths[10] == 4
    requires Total(widths[..6]) == 20
    ensures HasLastOffsets(widths)
  {
    NextOffset(widths, 6); NextOffset(widths, 7); NextOffset(widths, 8);
    NextOffset(widths, 9); NextOffset(widths, 10);
    assert widths[..11] == widths;
  }

  lemma FirstFieldsStand(widths: seq<nat>, fields: seq<nat>, body: seq<Byte>)
    requires HasHeaderOffsets(widths) && Fits(widths, fields)
    ensures var b := Pack(widths, fields) + body;
            && |b| >= 24
            && Dword(b, 0) == fields[0] && Dword(b, 4) == fields[1] && Dword(b, 8) == fields[2]
            && Word(b, 12) == fields[3] && Word(b, 14) == fields[4] && Dword(b, 16) == fields[5] && Dword(b, 20) == fields[6]
  {
    FieldIsRead(widths, fields, 0, body, 0); FieldIsRead(widths, fields, 1, body, 4);
    FieldIsRead(widths, fields, 2, body, 8); FieldIsRead(widths, fields, 3, body, 12);
    FieldIsRead(widths, fields, 4, body, 14); FieldIsRead(widths, fields, 5, body, 16);
    FieldIsRead(widths, fields, 6, body, 20);
  }

  lemma LastFieldsStand(widths: seq<nat>, fields: seq<nat>, body: seq<Byte>)
    requires HasHeaderOffsets(widths) && Fits(widths, fields)
    ensures var b := Pack(widths, fields) + body;
            && |b| >= 40
            && Dword(b, 24) == fields[7] && Dword(b, 28) == fields[8] && Dword(b, 32) == fields[9] && Dword(b, 36) == fields[10]
  {
    FieldIsRead(widths, fields, 7, body, 24); FieldIsRead(widths, fields, 8, body, 28);
    FieldIsRead(widths, fields, 9, body, 32); FieldIsRead(widths, fields, 10, body, 36);
  }

  lemma PackedHeaderStands(image: Image, widths: seq<nat>, fields: seq<nat>, body: seq<Byte>)
    requires widths == BITMAPINFOHEADER && fields == DibFields(image, |body|) && Fits(widths, fields)
    ensures |Pack(widths, fields)| == 40 && HeaderStands(Pack(widths, fields) + body, image)
  {
    HeaderOffsets(widths);
    PackRoundTrip(widths, fields, body);
    FirstFieldsStand(widths, fields, body);
    LastFieldsStand(widths, fields, body);
  }

  /** Behind a header of 40 bytes and before the mask, every pixel stands at its offset. */
  lemma PixelStandsInDib(image: Image, header: seq<Byte>, mask: seq<Byte>, x: nat, y: nat)
    requires image.Valid() && |header| == 40 && x < image.width && y < |image.rows|
    ensures PixelAt(header + (BottomUp(image.rows) + mask), 40 + PixelOffset(image.width, |image.rows|, x, y), image.rows[y][x])
  {
    var at := PixelOffset(image.width, |image.rows|, x, y);
    var pixels := BottomUp(image.rows);
    PixelStandsAtItsOffset(image.width, image.rows, x, y);
    SliceOfFirst(pixels, mask, at, at + 4);
    var bytes := PixelBytes(image.rows[y][x]);
    assert bytes == pixels[at..at + 4];
    assert bytes[0] == pixels[at] && bytes[1] == pixels[at + 1] && bytes[2] == pixels[at + 2] && bytes[3] == pixels[at + 3];
  }

  lemma {:induction false} BottomUpArea(width: nat, rows: seq<seq<Argb>>)
    requires Image(width, rows).Valid()
    ensures |BottomUp(rows)| == Area(4 * width, |rows|)
  {
    if rows != [] {
      var above := rows[..|rows| - 1];
      BottomUpArea(width, above);
      OneMore(|above|, 4 * width);
    }
  }

  /** What follows the pixels is zero. */
  lemma BodyEndsInMask(image: Image, header: seq<Byte>, body: seq<Byte>)
    requires |header| == 40 && body == DibBody(image)
    ensures |header + body| == 40 + |BottomUp(image.rows)| + Area(MaskStride(image.width), |image.rows|)
    ensures forall i | 40 + |BottomUp(image.rows)| <= i < |header + body| :: (header + body)[i] == 0
  {
  }

  lemma BytesStand(image: Image, header: seq<Byte>, body: seq<Byte>)
    requires Representable(image) && |header| == 40 && body == DibBody(image) && HeaderStands(header + body, image)
    ensures IsBitmapOf(header + body, image)
  {
    var w, h := image.width, |image.rows|;
    var mask := Zeros(MaskStride(w) * h);
    BottomUpArea(w, image.rows);
    BodyEndsInMask(image, header, body);
    AllPixelsStand(image, header, mask);
  }

  lemma AllPixelsStand(image: Image, header: seq<Byte>, mask: seq<Byte>)
    requires image.Valid() && |header| == 40
    ensures PixelsStand(header + (BottomUp(image.rows) + mask), image)
  {
    var dib, w, h := header + (BottomUp(image.rows) + mask), image.width, |image.rows|;
    forall y, x | 0 <= y < h && 0 <= x < w
      ensures PixelAt(dib, 40 + PixelOffset(w, h, x, y), image.rows[y][x])
    {
      PixelStandsInDib(image, header, mask, x, y);
    }
  }

  /** The bitmap of an image: a reader gets every pixel back, and every byte is what it must be. */
  method DibBytes(image: Image) returns (dib: seq<Byte>)
    requires Representable(image)
    ensures ReadDib(dib) == Some(image) && IsBitmapOf(dib, image)
  {
    var width, height := image.width, |image.rows|;
    var pixels := PixelData(image);
    var maskStride := (width + 31) / 32 * 4;
    var mask := Zeros(maskStride * height);
    PartsMakeDib(image, pixels, mask);
    var fields := [DIB_HEADER_SIZE, width, 2 * height, 1, 32, 0, |pixels| + |mask|, 0, 0, 0, 0];
    assert fields == DibFields(image, |pixels| + |mask|);
    var header := Pack(BITMAPINFOHEADER, fields);
    dib := header + pixels + mask;
  }

  lemma PartsMakeDib(image: Image, pixels: seq<Byte>, mask: seq<Byte>)
    requires Representable(image) && pixels == BottomUp(image.rows) && mask == Zeros(MaskStride(image.width) * |image.rows|)
    ensures var fields := DibFields(image, |pixels| + |mask|);
            && Fits(BITMAPINFOHEADER, fields)
            && ReadDib(Pack(BITMAPINFOHEADER, fields) + pixels + mask) == Some(image)
            && IsBitmapOf(Pack(BITMAPINFOHEADER, fields) + pixels + mask, image)
  {
    var body := pixels + mask;
    DibRoundTrip(image);
    assert DibBody(image) == body;
    var header := Pack(BITMAPINFOHEADER, DibFields(image, |body|));
    Associative(header, pixels, mask);
    PackedHeaderStands(image, BITMAPINFOHEADER, DibFields(image, |body|), body);
    BytesStand(image, header, body);
  }

  /** Whatever the icon's images up to 256 by 256 pixels, their bitmaps can be encoded. */
  lemma IconSizesAreRepresentable(image: Image)
    requires image.Valid() && image.width == |image.rows| <= 256
    ensures Representable(image)
  {
    var n := image.width;
    TimesIsMonotone(n, n, 256);
    TimesIsMonotone(MaskStride(n), n, 256);
    assert MaskStride(n) <= 32;
  }
}
