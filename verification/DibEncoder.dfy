/**
 * The CF_DIB encoder of `setClipboardImage` (backend/clipboard_windows.go):
 * a 40-byte BITMAPINFOHEADER followed by the pixel rows, bottom row first,
 * three bytes a pixel in the order blue, green, red, each row padded with
 * zeros to a multiple of four bytes.
 */
module DibEncoder {
  import opened Common

  type byte = x: int | 0 <= x < 0x100
  type word = x: int | 0 <= x < 0x10000

  const HEADER_SIZE: nat := 40
  const TWO32: nat := 0x1_0000_0000

  /** The 16-bit channels `RGBA()` returns. */
  datatype Rgba = Rgba(r: word, g: word, b: word, a: word)

  /** The 8-bit channels that reach the clipboard. */
  datatype Rgb8 = Rgb8(r: byte, g: byte, b: byte)

  datatype Image = Image(minX: int, minY: int, maxX: int, maxY: int, at: (int, int) -> Rgba) {
    function W(): int { maxX - minX }
    function H(): int { maxY - minY }

    /** The colour of the pixel `x` from the left and `y` from the top. */
    function Color(x: int, y: int): Rgb8 {
      var p := at(minX + x, minY + y);
      Rgb8(p.r / 256, p.g / 256, p.b / 256)
    }
  }

  /** `(w*3 + 3) &^ 3`: clearing the two low bits. */
  function RowSize(w: nat): nat {
    (w * 3 + 3) - (w * 3 + 3) % 4
  }

  /** The row size is the least multiple of four that holds a row of pixels. */
  lemma RowSizeIsLeast(w: nat, n: nat)
    ensures 3 * w <= RowSize(w) < 3 * w + 4 && RowSize(w) % 4 == 0
    ensures n % 4 == 0 && 3 * w <= n ==> RowSize(w) <= n
  {
  }

  // -------------------------------------------------------------------------
  // The bytes of the bitmap, position by position
  // -------------------------------------------------------------------------

  /** Byte `k` of `v` in little-endian order, after cutting `v` to an unsigned number. */
  function Le(v: nat, k: nat): byte
    requires k < 4
  {
    if k == 0 then v % 256
    else if k == 1 then v / 0x100 % 256
    else if k == 2 then v / 0x1_0000 % 256
    else v / 0x100_0000 % 256
  }

  function HeaderByte(w: nat, h: nat, size: nat, i: nat): byte
    requires i < HEADER_SIZE
  {
    if i < 4 then Le(HEADER_SIZE, i)
    else if i < 8 then Le(w, i - 4)
    else if i < 12 then Le(h, i - 8)
    else if i < 14 then Le(1, i - 12)
    else if i < 16 then Le(24, i - 14)
    else if i < 20 then Le(0, i - 16)
    else if i < 24 then Le(size, i - 20)
    else 0
  }

  function Channel(c: Rgb8, k: nat): byte
    requires k < 3
  {
    if k == 0 then c.b else if k == 1 then c.g else c.r
  }

  /** Byte `col` of the buffer row that holds picture row `y`: a channel or padding. */
  function RowByte(img: Image, y: int, col: nat): byte
    requires img.W() > 0
  {
    if col < 3 * img.W() then Channel(img.Color(col / 3, y), col % 3) else 0
  }

  function Header(w: nat, h: nat, size: nat): (d: seq<byte>)
    ensures |d| == HEADER_SIZE
  {
    seq(HEADER_SIZE, i requires 0 <= i < HEADER_SIZE => HeaderByte(w, h, size, i))
  }

  function RowBytes(img: Image, rs: nat, y: int): (d: seq<byte>)
    requires img.W() > 0
    ensures |d| == rs
  {
    seq(rs, col requires col >= 0 => RowByte(img, y, col))
  }

  /** Picture rows `n - 1` down to 0, one after the other. */
  function RowsFrom(img: Image, rs: nat, n: nat): seq<byte>
    requires img.W() > 0
  {
    if n == 0 then [] else RowBytes(img, rs, n - 1) + RowsFrom(img, rs, n - 1)
  }

  function DibBytes(img: Image): seq<byte>
    requires img.W() > 0 && img.H() > 0
  {
    var rs := RowSize(img.W());
    Header(img.W(), img.H(), rs * img.H()) + RowsFrom(img, rs, img.H())
  }

  // -------------------------------------------------------------------------
  // Index arithmetic
  // -------------------------------------------------------------------------

  lemma MulStep(a: int, b: int, m: nat)
    requires a < b
    ensures a * m + m <= b * m
  {
    assert b * m == (a + 1) * m + (b - a - 1) * m;
    assert (b - a - 1) * m >= 0;
  }

  /** Quotient and remainder are determined by `n == a*m + c` with `c` below `m`. */
  lemma DivModUnique(a: nat, m: nat, c: nat)
    requires c < m
    ensures (a * m + c) / m == a && (a * m + c) % m == c
  {
    var n := a * m + c;
    var q, r := n / m, n % m;
    assert n == q * m + r && 0 <= r < m;
    if q < a {
      MulStep(q, a, m);
    } else if a < q {
      MulStep(a, q, m);
    }
  }

  lemma Commute(a: int, b: int)
    ensures a * b == b * a
  {
  }

  lemma Pred(n: int, rs: int)
    ensures n * rs == (n - 1) * rs + rs
  {
  }

  /** Where the encoder writes channel `k` of pixel (`x`, `y`), with `rs` bytes a row. */
  function Offset(rs: nat, h: nat, x: nat, y: nat, k: nat): int {
    HEADER_SIZE + (h - 1 - y) * rs + x * 3 + k
  }

  /** The encoder writes only inside the buffer and behind the header, and
      different pixels or channels go to different bytes. */
  lemma PixelsDoNotOverlap(w: nat, rs: nat, h: nat, x: nat, y: nat, k: nat, x': nat, y': nat, k': nat)
    requires rs == RowSize(w)
    requires x < w && y < h && k < 3 && x' < w && y' < h && k' < 3
    ensures HEADER_SIZE <= Offset(rs, h, x, y, k) < HEADER_SIZE + rs * h
    ensures Offset(rs, h, x, y, k) == Offset(rs, h, x', y', k') ==> x == x' && y == y' && k == k'
  {
    RowSizeIsLeast(w, 0);
    OffsetsDiffer(rs, h, x, y, k, x', y', k');
  }

  lemma OffsetsDiffer(rs: nat, h: nat, x: nat, y: nat, k: nat, x': nat, y': nat, k': nat)
    requires 3 * x + 3 <= rs && 3 * x' + 3 <= rs && y < h && k < 3 && y' < h && k' < 3
    ensures HEADER_SIZE <= Offset(rs, h, x, y, k) < HEADER_SIZE + rs * h
    ensures Offset(rs, h, x, y, k) == Offset(rs, h, x', y', k') ==> x == x' && y == y' && k == k'
  {
    MulStep(h - 1 - y, h, rs);
    Commute(rs, h);
    DivModUnique(h - 1 - y, rs, x * 3 + k);
    DivModUnique(h - 1 - y', rs, x' * 3 + k');
  }

  lemma {:induction false} RowsLength(img: Image, rs: nat, n: nat)
    requires img.W() > 0
    ensures |RowsFrom(img, rs, n)| == n * rs
  {
    if n > 0 {
      RowsLength(img, rs, n - 1);
      Pred(n, rs);
    }
  }

  /** The rows end with the rows of the upper part of the picture. */
  lemma {:induction false} RowsEndWith(img: Image, rs: nat, n: nat, k: nat)
    requires img.W() > 0 && k <= n
    ensures EndsWith(RowsFrom(img, rs, n), RowsFrom(img, rs, k))
  {
    if k < n {
      RowsEndWith(img, rs, n - 1, k);
      DropFront(RowBytes(img, rs, n - 1), RowsFrom(img, rs, n - 1), RowsFrom(img, rs, k));
    }
  }

  predicate EndsWith(s: seq<byte>, tail: seq<byte>) {
    |tail| <= |s| && s[|s| - |tail|..] == tail
  }

  lemma DropFront(front: seq<byte>, rest: seq<byte>, tail: seq<byte>)
    requires EndsWith(rest, tail)
    ensures EndsWith(front + rest, tail)
  {
  }

  lemma Rest(n: int, y: int, rs: int)
    ensures n * rs - (y + 1) * rs == (n - 1 - y) * rs
  {
  }

  /** Picture row `y` starts `(n - 1 - y) * rs` bytes into `n` rows. */
  lemma RowAt(img: Image, rs: nat, n: nat, y: nat, start: int)
    requires img.W() > 0 && y < n && start == (n - 1 - y) * rs
    ensures 0 <= start && start + rs <= |RowsFrom(img, rs, n)|
    ensures RowsFrom(img, rs, n)[start..start + rs] == RowBytes(img, rs, y)
  {
    var rows, tail := RowsFrom(img, rs, n), RowsFrom(img, rs, y + 1);
    RowsEndWith(img, rs, n, y + 1);
    assert start == |rows| - |tail| by {
      RowsLength(img, rs, n);
      RowsLength(img, rs, y + 1);
      Rest(n, y, rs);
    }
    RowHead(rows, tail, RowBytes(img, rs, y), start);
  }

  lemma RowHead(rows: seq<byte>, tail: seq<byte>, row: seq<byte>, start: nat)
    requires start <= |rows| && rows[start..] == tail && row <= tail
    ensures start + |row| <= |rows| && rows[start..start + |row|] == row
  {
    assert rows[start..start + |row|] == tail[..|row|];
  }

  // -------------------------------------------------------------------------
  // Reading a bitmap back, as a program receiving the clipboard does
  // -------------------------------------------------------------------------

  datatype Bitmap = Bitmap(width: nat, height: nat, rows: seq<seq<Rgb8>>)

  function U16(d: seq<byte>, off: nat): nat
    requires off + 2 <= |d|
  {
    d[off] as int + 0x100 * d[off + 1] as int
  }

  function U32(d: seq<byte>, off: nat): nat
    requires off + 4 <= |d|
  {
    d[off] as int + 0x100 * d[off + 1] as int + 0x1_0000 * d[off + 2] as int + 0x100_0000 * d[off + 3] as int
  }

  /** A reader of uncompressed 24-bit bottom-up bitmaps. */
  function Decode(d: seq<byte>): Option<Bitmap> {
    if |d| < HEADER_SIZE || !KnownFormat(d) then None
    else DecodePixels(d[HEADER_SIZE..], U32(d, 4), U32(d, 8), U32(d, 20))
  }

  predicate KnownFormat(d: seq<byte>)
    requires |d| >= HEADER_SIZE
  {
    U32(d, 0) == HEADER_SIZE && U16(d, 12) == 1 && U16(d, 14) == 24 && U32(d, 16) == 0
  }

  function DecodePixels(p: seq<byte>, w: nat, h: nat, size: nat): Option<Bitmap> {
    if w == 0 || size != RowSize(w) * h || |p| != size then None
    else Some(Bitmap(w, h, ReadRows(p, w, RowSize(w), h)))
  }

  /** The row at `(h - 1 - y) * rs` is row `y` of the picture. */
  function ReadRows(p: seq<byte>, w: nat, rs: nat, h: nat): seq<seq<Rgb8>>
    requires 3 * w <= rs && |p| == rs * h
  {
    seq(h, y requires 0 <= y < h =>
      MulStep(h - 1 - y, h, rs);
      Commute(rs, h);
      ReadRow(p[(h - 1 - y) * rs..(h - 1 - y) * rs + rs], w))
  }

  function ReadRow(row: seq<byte>, w: nat): seq<Rgb8>
    requires 3 * w <= |row|
  {
    seq(w, x requires 0 <= x < w => Rgb8(row[3 * x + 2], row[3 * x + 1], row[3 * x]))
  }

  function PictureRow(img: Image, y: int): seq<Rgb8>
    requires img.W() > 0
  {
    seq(img.W(), x => img.Color(x, y))
  }

  function Pixels(img: Image): seq<seq<Rgb8>>
    requires img.W() > 0 && img.H() > 0
  {
    seq(img.H(), y => PictureRow(img, y))
  }

  /** Four bytes keep a number up to multiples of 2^32. */
  lemma LeAll(v: nat)
    ensures Le(v, 0) as int + 0x100 * Le(v, 1) as int + 0x1_0000 * Le(v, 2) as int + 0x100_0000 * Le(v, 3) as int == v % TWO32
  {
    var v1 := v / 256;
    var v2 := v1 / 256;
    var v3 := v2 / 256;
    var v4 := v3 / 256;
    assert v == 256 * v1 + v % 256 && v1 == 256 * v2 + v1 % 256 && v2 == 256 * v3 + v2 % 256 && v3 == 256 * v4 + v3 % 256;
    assert v / 0x1_0000 == v2 && v / 0x100_0000 == v3;
    assert v == TWO32 * v4 + (v % 256 + 0x100 * (v1 % 256) + 0x1_0000 * (v2 % 256) + 0x100_0000 * (v3 % 256));
  }

  lemma FieldReadsBack(d: seq<byte>, off: nat, v: nat)
    requires off + 4 <= |d|
    requires d[off] == Le(v, 0) && d[off + 1] == Le(v, 1) && d[off + 2] == Le(v, 2) && d[off + 3] == Le(v, 3)
    ensures U32(d, off) == v % TWO32
  {
    LeAll(v);
  }

  lemma HeaderReadsBack(d: seq<byte>, w: nat, h: nat, size: nat)
    requires |d| >= HEADER_SIZE && d[..HEADER_SIZE] == Header(w, h, size)
    ensures U32(d, 0) == HEADER_SIZE && U32(d, 4) == w % TWO32 && U32(d, 8) == h % TWO32
    ensures U16(d, 12) == 1 && U16(d, 14) == 24 && U32(d, 16) == 0 && U32(d, 20) == size % TWO32
  {
    assert forall i | 0 <= i < HEADER_SIZE :: d[i] == d[..HEADER_SIZE][i] == HeaderByte(w, h, size, i);
    FieldReadsBack(d, 0, HEADER_SIZE);
    FieldReadsBack(d, 4, w);
    FieldReadsBack(d, 8, h);
    FieldReadsBack(d, 16, 0);
    FieldReadsBack(d, 20, size);
  }

  /** The three bytes of pixel (`x`, `y`) in its row. */
  lemma PixelBytes(img: Image, x: nat, y: nat)
    requires img.W() > x
    ensures RowByte(img, y, x * 3) == img.Color(x, y).b
    ensures RowByte(img, y, x * 3 + 1) == img.Color(x, y).g
    ensures RowByte(img, y, x * 3 + 2) == img.Color(x, y).r
  {
    assert (x * 3 + 1) / 3 == x && (x * 3 + 2) / 3 == x && (x * 3 + 1) % 3 == 1 && (x * 3 + 2) % 3 == 2;
  }

  lemma RowReadsBack(img: Image, rs: nat, y: nat)
    requires img.W() > 0 && 3 * img.W() <= rs
    ensures ReadRow(RowBytes(img, rs, y), img.W()) == PictureRow(img, y)
  {
    forall x | 0 <= x < img.W() ensures ReadRow(RowBytes(img, rs, y), img.W())[x] == img.Color(x, y) {
      PixelBytes(img, x, y);
    }
  }

  lemma RowsReadBack(img: Image, rs: nat)
    requires img.W() > 0 && img.H() > 0 && 3 * img.W() <= rs
    ensures |RowsFrom(img, rs, img.H())| == rs * img.H()
    ensures ReadRows(RowsFrom(img, rs, img.H()), img.W(), rs, img.H()) == Pixels(img)
  {
    RowsLength(img, rs, img.H());
    Commute(rs, img.H());
    forall y | 0 <= y < img.H()
      ensures ReadRows(RowsFrom(img, rs, img.H()), img.W(), rs, img.H())[y] == PictureRow(img, y)
    {
      OneRowReadsBack(img, rs, img.H(), y);
    }
  }

  lemma OneRowReadsBack(img: Image, rs: nat, h: nat, y: nat)
    requires img.W() > 0 && 3 * img.W() <= rs && y < h && |RowsFrom(img, rs, h)| == rs * h
    ensures ReadRows(RowsFrom(img, rs, h), img.W(), rs, h)[y] == PictureRow(img, y)
  {
    RowAt(img, rs, h, y, (h - 1 - y) * rs);
    RowReadsBack(img, rs, y);
  }

  /** The sizes the header can hold. */
  predicate Fits(img: Image)
    requires img.W() > 0 && img.H() > 0
  {
    img.W() < TWO32 && img.H() < TWO32 && RowSize(img.W()) * img.H() < TWO32
  }

  /** The bitmap has the size of the picture, and every pixel, counted from the left and
      from the top, has the upper eight bits of its red, green and blue. */
  ghost predicate Shows(b: Bitmap, img: Image) {
    && b.width == img.W() && b.height == img.H() == |b.rows|
    && forall x, y | 0 <= x < img.W() && 0 <= y < img.H() :: PixelShown(b, img, x, y)
  }

  ghost predicate PixelShown(b: Bitmap, img: Image, x: nat, y: nat) {
    var p := img.at(img.minX + x, img.minY + y);
    y < |b.rows| && x < |b.rows[y]| == img.W() && b.rows[y][x] == Rgb8(p.r / 256, p.g / 256, p.b / 256)
  }

  /** Round trip: the receiver sees the same size and the same 8-bit colours,
      exactly when width, height and pixel area fit the header's 32-bit fields. */
  lemma DecodeEncode(img: Image)
    requires img.W() > 0 && img.H() > 0
    ensures Decode(DibBytes(img)).Some? && Shows(Decode(DibBytes(img)).value, img) <==> Fits(img)
  {
    if Fits(img) {
      FittingReadsBack(img, RowSize(img.W()), RowSize(img.W()) * img.H());
    } else if Decode(DibBytes(img)).Some? {
      DecodedSizes(DibBytes(img));
    }
  }

  lemma FittingReadsBack(img: Image, rs: nat, size: nat)
    requires img.W() > 0 && img.H() > 0 && rs == RowSize(img.W()) && size == rs * img.H()
    requires img.W() < TWO32 && img.H() < TWO32 && size < TWO32
    ensures Decode(DibBytes(img)) == Some(Bitmap(img.W(), img.H(), Pixels(img)))
  {
    var d, p := DibBytes(img), RowsFrom(img, rs, img.H());
    assert d == Header(img.W(), img.H(), size) + p;
    HeaderFitsBack(d, p, img.W(), img.H(), size);
    RowSizeIsLeast(img.W(), 0);
    RowsReadBack(img, rs);
    assert Decode(d) == DecodePixels(p, img.W(), img.H(), size);
  }

  lemma HeaderFitsBack(d: seq<byte>, p: seq<byte>, w: nat, h: nat, size: nat)
    requires w < TWO32 && h < TWO32 && size < TWO32
    requires d == Header(w, h, size) + p
    ensures |d| >= HEADER_SIZE && KnownFormat(d) && d[HEADER_SIZE..] == p
    ensures U32(d, 4) == w && U32(d, 8) == h && U32(d, 20) == size
  {
    assert d[HEADER_SIZE..] == p && d[..HEADER_SIZE] == Header(w, h, size);
    HeaderReadsBack(d, w, h, size);
    SmallStays(w);
    SmallStays(h);
    SmallStays(size);
  }

  lemma SmallStays(v: nat)
    requires v < TWO32
    ensures v % TWO32 == v
  {
  }

  /** What a decoded bitmap says about the bytes it was read from. */
  lemma DecodedSizes(d: seq<byte>)
    requires Decode(d).Some?
    ensures var b := Decode(d).value;
            b.width < TWO32 && b.height < TWO32 && RowSize(b.width) * b.height < TWO32
  {
  }

  /** The bytes of a pixel: blue, green, red, in the row that lies as far from the end as
      the pixel from the top. */
  predicate PixelAt(d: seq<byte>, img: Image, x: nat, y: nat)
    requires img.W() > 0
  {
    var o, p := 40 + (img.H() - 1 - y) * RowSize(img.W()) + 3 * x, img.at(img.minX + x, img.minY + y);
    0 <= o && o + 2 < |d| && d[o] == p.b / 256 && d[o + 1] == p.g / 256 && d[o + 2] == p.r / 256
  }

  lemma PixelIsThere(img: Image, x: nat, y: nat)
    requires img.W() > x && img.H() > y
    ensures PixelAt(DibBytes(img), img, x, y)
  {
    var start := (img.H() - 1 - y) * RowSize(img.W());
    RowSizeIsLeast(img.W(), 0);
    PixelBytes(img, x, y);
    ByteAt(img, y, 3 * x, start);
    ByteAt(img, y, 3 * x + 1, start);
    ByteAt(img, y, 3 * x + 2, start);
  }

  lemma ByteAt(img: Image, y: nat, col: nat, start: int)
    requires img.W() > 0 && img.H() > y && col < RowSize(img.W()) && start == (img.H() - 1 - y) * RowSize(img.W())
    ensures 0 <= start && 40 + start + col < |DibBytes(img)| && DibBytes(img)[40 + start + col] == RowByte(img, y, col)
  {
    var rs := RowSize(img.W());
    RowAt(img, rs, img.H(), y, start);
    assert RowsFrom(img, rs, img.H())[start + col] == RowsFrom(img, rs, img.H())[start..start + rs][col];
  }

  /** The header, byte by byte. */
  lemma HeaderIsThere(img: Image)
    requires img.W() > 0 && img.H() > 0
    ensures var d, w, h, n := DibBytes(img), img.W(), img.H(), RowSize(img.W()) * img.H();
            && |d| == 40 + n
            && d[..4] == [40, 0, 0, 0]
            && d[4..8] == [w % 256, w / 0x100 % 256, w / 0x1_0000 % 256, w / 0x100_0000 % 256]
            && d[8..12] == [h % 256, h / 0x100 % 256, h / 0x1_0000 % 256, h / 0x100_0000 % 256]
            && d[12..20] == [1, 0, 24, 0, 0, 0, 0, 0]
            && d[20..24] == [n % 256, n / 0x100 % 256, n / 0x1_0000 % 256, n / 0x100_0000 % 256]
            && forall i | 24 <= i < 40 :: d[i] == 0
  {
    RowsLength(img, RowSize(img.W()), img.H());
    Commute(RowSize(img.W()), img.H());
  }

  /** Every byte behind a row's pixels is zero. */
  lemma PaddingIsZero(img: Image, rs: nat, y: nat, col: nat, start: int)
    requires img.W() > 0 && rs == RowSize(img.W()) && y < img.H() && 3 * img.W() <= col < rs && start == (img.H() - 1 - y) * rs
    ensures 0 <= HEADER_SIZE + start + col < |DibBytes(img)| && DibBytes(img)[HEADER_SIZE + start + col] == 0
  {
    RowAt(img, rs, img.H(), y, start);
    assert RowsFrom(img, rs, img.H())[start + col] == RowsFrom(img, rs, img.H())[start..start + rs][col];
  }

  // -------------------------------------------------------------------------
  // The encoder
  // -------------------------------------------------------------------------

  method PutU32(buf: array<byte>, off: nat, v: nat)
    requires off + 4 <= buf.Length
    modifies buf
    ensures forall i | 0 <= i < buf.Length ::
              buf[i] == if off <= i < off + 4 then Le(v, i - off) else old(buf[i])
  {
    buf[off] := v % 256;
    buf[off + 1] := v / 0x100 % 256;
    buf[off + 2] := v / 0x1_0000 % 256;
    buf[off + 3] := v / 0x100_0000 % 256;
  }

  method PutU16(buf: array<byte>, off: nat, v: nat)
    requires off + 2 <= buf.Length
    modifies buf
    ensures forall i | 0 <= i < buf.Length ::
              buf[i] == if off <= i < off + 2 then Le(v, i - off) else old(buf[i])
  {
    buf[off] := v % 256;
    buf[off + 1] := v / 0x100 % 256;
  }

  method PutHeader(buf: array<byte>, w: nat, h: nat, pixelBytes: nat)
    requires buf.Length >= HEADER_SIZE
    requires forall i | 0 <= i < buf.Length :: buf[i] == 0
    modifies buf
    ensures buf[..HEADER_SIZE] == Header(w, h, pixelBytes)
    ensures forall i | HEADER_SIZE <= i < buf.Length :: buf[i] == 0
  {
    PutU32(buf, 0, HEADER_SIZE);
    PutU32(buf, 4, w);
    PutU32(buf, 8, h);
    PutU16(buf, 12, 1);
    PutU16(buf, 14, 3 * 8);
    PutU32(buf, 16, 0);
    PutU32(buf, 20, pixelBytes);
  }

  /** The inner loop: the pixels of picture row `y` go to the buffer from `dstRow` on. */
  method PutRow(img: Image, y: nat, out: array<byte>, dstRow: nat, rowSize: nat)
    requires 0 < 3 * img.W() <= rowSize && dstRow + rowSize <= out.Length
    requires forall i | dstRow <= i < dstRow + rowSize :: out[i] == 0
    modifies out
    ensures forall i | 0 <= i < out.Length && !(dstRow <= i < dstRow + rowSize) :: out[i] == old(out[i])
    ensures out[dstRow..dstRow + rowSize] == RowBytes(img, rowSize, y)
  {
    var w := img.W();
    for x := 0 to w
      invariant forall i | 0 <= i < out.Length && !(dstRow <= i < dstRow + 3 * x) :: out[i] == old(out[i])
      invariant forall i | dstRow <= i < dstRow + 3 * x :: out[i] == RowByte(img, y, i - dstRow)
    {
      var p := img.at(img.minX + x, img.minY + y);
      var o := dstRow + x * 3;
      PixelBytes(img, x, y);
      out[o] := p.b / 256;
      out[o + 1] := p.g / 256;
      out[o + 2] := p.r / 256;
    }
  }

  /** The outer loop: all pixel rows, from the top of the picture down. */
  method PutRows(img: Image, out: array<byte>, rowSize: nat)
    requires 0 < 3 * img.W() <= rowSize && img.H() > 0 && out.Length == HEADER_SIZE + rowSize * img.H()
    requires forall i | HEADER_SIZE <= i < out.Length :: out[i] == 0
    modifies out
    ensures out[..HEADER_SIZE] == old(out[..HEADER_SIZE])
    ensures out[HEADER_SIZE..] == RowsFrom(img, rowSize, img.H())
  {
    var h := img.H();
    Commute(rowSize, h);
    ghost var top: int := out.Length; // the rows from here on are written
    for y := 0 to h
      invariant HEADER_SIZE <= top <= out.Length
      invariant top == HEADER_SIZE + (h - y) * rowSize
      invariant out[..HEADER_SIZE] == old(out[..HEADER_SIZE])
      invariant forall i | HEADER_SIZE <= i < top :: out[i] == 0
      invariant out[top..] == RowsFrom(img, rowSize, y)
    {
      Pred(h - y, rowSize);
      MulStep(-1, h - 1 - y, rowSize);
      var dstRow := HEADER_SIZE + (h - 1 - y) * rowSize;
      ghost var written := out[top..];
      PutRow(img, y, out, dstRow, rowSize);
      assert out[top..] == written;
      assert out[dstRow..] == out[dstRow..dstRow + rowSize] + out[top..];
      top := dstRow;
    }
  }

  /** An empty picture is refused; any other becomes exactly its bitmap. */
  method EncodeDib(img: Image) returns (buf: array?<byte>)
    ensures buf == null <==> img.W() <= 0 || img.H() <= 0
    ensures buf != null ==> fresh(buf) && buf[..] == DibBytes(img)
    ensures buf != null ==> forall x, y | 0 <= x < img.W() && 0 <= y < img.H() :: PixelAt(buf[..], img, x, y)
  {
    var w, h := img.W(), img.H();
    if w <= 0 || h <= 0 {
      return null;
    }
    var rowSize := RowSize(w);
    RowSizeIsLeast(w, 0);
    var pixelBytes := rowSize * h;
    var out := new byte[HEADER_SIZE + pixelBytes](_ => 0);
    PutHeader(out, w, h, pixelBytes);
    PutRows(img, out, rowSize);
    assert out[..] == out[..HEADER_SIZE] + out[HEADER_SIZE..];
    buf := out;
    forall x, y | 0 <= x < img.W() && 0 <= y < img.H() ensures PixelAt(buf[..], img, x, y) {
      PixelIsThere(img, x, y);
    }
  }
}
