/**
  The ZBFT font image of fontlib/font_gen.py: 16x16 one-bit glyphs packed into 32 bytes, an ascending index of
  16-bit code points, and a header with the glyph count and the CRC of everything after it.
 */
module FontFormat {
  import opened Crc32

  const WIDTH := 16
  const HEIGHT := 16
  const BYTES_PER_GLYPH := 32
  const HEADER_SIZE := 16

  // ---- Glyph bitmaps -----------------------------------------------------------------------

  /** px[row][column], true where there is ink. */
  type Pixels = seq<seq<bool>>

  predicate IsGlyph(px: Pixels) { |px| == HEIGHT && forall row :: 0 <= row < HEIGHT ==> |px[row]| == WIDTH }

  /** 0x80 >> column. */
  function Mask(column: nat): bv8 {
    match column
    case 0 => 0x80 case 1 => 0x40 case 2 => 0x20 case 3 => 0x10
    case 4 => 0x08 case 5 => 0x04 case 6 => 0x02 case _ => 0x01
  }

  /** The first n of eight pixels, leftmost in the top bit. */
  function PackColumns(ink: seq<bool>, n: nat): Byte
    requires n <= |ink| == 8
  {
    if n == 0 then 0 else if ink[n - 1] then PackColumns(ink, n - 1) | Mask(n - 1) else PackColumns(ink, n - 1)
  }

  function UnpackByte(b: Byte): seq<bool> { seq(8, (c: nat) => b & Mask(c) != 0) }

  lemma MasksAreDisjoint(m: nat, c: nat)
    requires m < 8 && c < 8
    ensures m != c ==> Mask(m) & Mask(c) == 0
    ensures Mask(c) & Mask(c) == Mask(c) && Mask(c) != 0
  {
  }

  lemma OrThenTest(x: Byte, m: Byte, c: Byte)
    ensures m & c == 0 ==> (x | m) & c == x & c
    ensures m != 0 ==> (x | m) & m != 0
  {
  }

  lemma {:induction false} PackedColumn(ink: seq<bool>, n: nat, c: nat)
    requires n <= |ink| == 8 && c < 8
    ensures PackColumns(ink, n) & Mask(c) != 0 <==> c < n && ink[c]
  {
    if n > 0 {
      PackedColumn(ink, n - 1, c);
      MasksAreDisjoint(n - 1, c);
      OrThenTest(PackColumns(ink, n - 1), Mask(n - 1), Mask(c));
    }
  }

  lemma UnpackPack(ink: seq<bool>)
    requires |ink| == 8
    ensures UnpackByte(PackColumns(ink, 8)) == ink
  {
    forall c: nat | c < 8 ensures UnpackByte(PackColumns(ink, 8))[c] == ink[c] { PackedColumn(ink, 8, c); }
  }

  lemma ByteIsItsBits(x: Byte, y: Byte)
    requires forall c: nat :: c < 8 ==> (x & Mask(c) != 0 <==> y & Mask(c) != 0)
    ensures x == y
  {
    assert x & Mask(0) == y & Mask(0);
    assert x & Mask(1) == y & Mask(1);
    assert x & Mask(2) == y & Mask(2);
    assert x & Mask(3) == y & Mask(3);
    assert x & Mask(4) == y & Mask(4);
    assert x & Mask(5) == y & Mask(5);
    assert x & Mask(6) == y & Mask(6);
    assert x & Mask(7) == y & Mask(7);
  }

  lemma PackUnpack(b: Byte)
    ensures PackColumns(UnpackByte(b), 8) == b
  {
    forall c: nat | c < 8 ensures PackColumns(UnpackByte(b), 8) & Mask(c) != 0 <==> b & Mask(c) != 0 {
      PackedColumn(UnpackByte(b), 8, c);
    }
    ByteIsItsBits(PackColumns(UnpackByte(b), 8), b);
  }

  /** Two bytes a row, left half first. */
  function Packed(px: Pixels): (data: seq<Byte>)
    requires IsGlyph(px)
    ensures |data| == BYTES_PER_GLYPH
  {
    seq(BYTES_PER_GLYPH, k requires 0 <= k < BYTES_PER_GLYPH => PackColumns(px[k / 2][8 * (k % 2)..8 * (k % 2) + 8], 8))
  }

  function Unpacked(data: seq<Byte>): (px: Pixels)
    requires |data| == BYTES_PER_GLYPH
    ensures IsGlyph(px)
  {
    seq(HEIGHT, row requires 0 <= row < HEIGHT => UnpackByte(data[2 * row]) + UnpackByte(data[2 * row + 1]))
  }

  lemma PackedHalves(px: Pixels, row: nat)
    requires IsGlyph(px) && row < HEIGHT
    ensures Packed(px)[2 * row] == PackColumns(px[row][0..8], 8) && Packed(px)[2 * row + 1] == PackColumns(px[row][8..16], 8)
  {
    var even, odd := 2 * row, 2 * row + 1;
    assert even / 2 == row && even % 2 == 0 && odd / 2 == row && odd % 2 == 1;
  }

  lemma PackedRow(px: Pixels, row: nat)
    requires IsGlyph(px) && row < HEIGHT
    ensures Unpacked(Packed(px))[row] == px[row]
  {
    PackedHalves(px, row);
    UnpackPack(px[row][0..8]);
    UnpackPack(px[row][8..16]);
    assert px[row] == px[row][0..8] + px[row][8..16];
  }

  lemma UnpackedByte(data: seq<Byte>, k: nat)
    requires |data| == BYTES_PER_GLYPH && k < BYTES_PER_GLYPH
    ensures Packed(Unpacked(data))[k] == data[k]
  {
    var left, right := UnpackByte(data[2 * (k / 2)]), UnpackByte(data[2 * (k / 2) + 1]);
    assert (left + right)[0..8] == left && (left + right)[8..16] == right;
    PackUnpack(data[k]);
  }

  /** Packing loses nothing and every 32 bytes are some glyph: the two directions are inverse. */
  lemma PackingIsInvertible(px: Pixels, data: seq<Byte>)
    requires IsGlyph(px) && |data| == BYTES_PER_GLYPH
    ensures Unpacked(Packed(px)) == px
    ensures Packed(Unpacked(data)) == data
  {
    forall row | 0 <= row < HEIGHT ensures Unpacked(Packed(px))[row] == px[row] { PackedRow(px, row); }
    forall k | 0 <= k < BYTES_PER_GLYPH ensures Packed(Unpacked(data))[k] == data[k] { UnpackedByte(data, k); }
  }

  /** Bit c from the left of a row's two bytes, in glyph_to_ascii_art's reading. */
  function RowBit(left: Byte, right: Byte, c: nat): bool
    requires c < 16
  {
    (((left as bv16) << 8) | (right as bv16)) & ((0x8000 as bv16) >> c) != 0
  }

  lemma LeftHalfBit(left: Byte, right: Byte, c: nat)
    requires c < 8
    ensures RowBit(left, right, c) <==> left & Mask(c) != 0
  {
    assert c == 0 || c == 1 || c == 2 || c == 3 || c == 4 || c == 5 || c == 6 || c == 7;
  }

  lemma RightHalfBit(left: Byte, right: Byte, c: nat)
    requires 8 <= c < 16
    ensures RowBit(left, right, c) <==> right & Mask(c - 8) != 0
  {
    assert c == 8 || c == 9 || c == 10 || c == 11 || c == 12 || c == 13 || c == 14 || c == 15;
  }

  /** The preview reads a packed glyph as it was drawn: row by row, the leftmost pixel in the top bit. */
  lemma PreviewShowsTheGlyph(px: Pixels, r: nat, c: nat)
    requires IsGlyph(px) && r < 16 && c < 16
    ensures (((Packed(px)[2 * r] as bv16) << 8) | (Packed(px)[2 * r + 1] as bv16)) & ((0x8000 as bv16) >> c) != 0 <==> px[r][c]
  {
    PackedHalves(px, r);
    if c < 8 {
      LeftHalfBit(Packed(px)[2 * r], Packed(px)[2 * r + 1], c);
      PackedColumn(px[r][0..8], 8, c);
    } else {
      RightHalfBit(Packed(px)[2 * r], Packed(px)[2 * r + 1], c);
      PackedColumn(px[r][8..16], 8, c - 8);
    }
  }

  /** render_glyph, from the pixels on: both halves of every row, column by column. */
  method RenderGlyph(px: Pixels) returns (data: array<Byte>)
    requires IsGlyph(px)
    ensures fresh(data) && data[..] == Packed(px)
  {
    data := new Byte[BYTES_PER_GLYPH];
    for row := 0 to HEIGHT
      invariant forall k :: 0 <= k < 2 * row ==> data[k] == Packed(px)[k]
    {
      var b0 := PackHalf(px[row], 0);
      var b1 := PackHalf(px[row], 8);
      data[row * 2] := b0;
      data[row * 2 + 1] := b1;
    }
  }

  method PackHalf(pixels: seq<bool>, first: nat) returns (b: Byte)
    requires |pixels| == WIDTH && (first == 0 || first == 8)
    ensures b == PackColumns(pixels[first..first + 8], 8)
  {
    b := 0;
    for column := first to first + 8
      invariant b == PackColumns(pixels[first..first + 8], column - first)
    {
      if pixels[column] {
        b := b | Mask(column - first);
      }
    }
  }

  // ---- Little-endian numbers ---------------------------------------------------------------

  function ByteOf(n: nat): Byte { (n % 256) as bv8 }

  function ValueOf(b: Byte): nat { b as int }

  lemma SmallRoundTrip(x: nat)
    requires x < 256
    ensures ValueOf(x as bv8) == x
  {
  }

  lemma ByteRoundTrip(n: nat)
    ensures ValueOf(ByteOf(n)) == n % 256
  {
    SmallRoundTrip(n % 256);
  }

  function Le16(n: nat): seq<Byte> { [ByteOf(n), ByteOf(n / 256)] }

  function FromLe16(b: seq<Byte>): nat
    requires |b| == 2
  {
    ValueOf(b[0]) + 256 * ValueOf(b[1])
  }

  function Le32(n: nat): seq<Byte> { Le16(n % 0x1_0000) + Le16(n / 0x1_0000) }

  function FromLe32(b: seq<Byte>): nat
    requires |b| == 4
  {
    FromLe16(b[..2]) + 0x1_0000 * FromLe16(b[2..])
  }

  lemma TwoDigits(n: nat)
    requires n < 0x1_0000
    ensures n % 256 + 256 * (n / 256 % 256) == n
  {
  }

  lemma Le16RoundTrip(n: nat)
    requires n < 0x1_0000
    ensures FromLe16(Le16(n)) == n
  {
    TwoDigits(n);
    var low, high := n % 256, n / 256 % 256;
    assert ValueOf(Le16(n)[0]) == low by { ByteRoundTrip(n); }
    assert ValueOf(Le16(n)[1]) == high by { ByteRoundTrip(n / 256); }
  }

  lemma Le32RoundTrip(n: nat)
    requires n < 0x1_0000_0000
    ensures FromLe32(Le32(n)) == n
  {
    Le16RoundTrip(n % 0x1_0000);
    Le16RoundTrip(n / 0x1_0000);
    assert Le32(n)[..2] == Le16(n % 0x1_0000) && Le32(n)[2..] == Le16(n / 0x1_0000);
  }

  function CrcBytes(crc: bv32): seq<Byte> {
    [(crc & 0xFF) as bv8, ((crc >> 8) & 0xFF) as bv8, ((crc >> 16) & 0xFF) as bv8, ((crc >> 24) & 0xFF) as bv8]
  }

  function FromCrcBytes(b: seq<Byte>): bv32
    requires |b| == 4
  {
    (b[0] as bv32) | ((b[1] as bv32) << 8) | ((b[2] as bv32) << 16) | ((b[3] as bv32) << 24)
  }

  lemma CrcBytesRoundTrip(crc: bv32)
    ensures FromCrcBytes(CrcBytes(crc)) == crc
  {
  }

  /** Low byte first: the number that each field's bytes are read as, and hence, by the round trips, written for. */
  lemma FieldsAreLittleEndian(two: seq<Byte>, four: seq<Byte>)
    requires |two| == 2 && |four| == 4
    ensures FromLe16(two) == two[0] as int + 256 * two[1] as int
    ensures FromLe32(four) == four[0] as int + 256 * four[1] as int + 65536 * four[2] as int + 16777216 * four[3] as int
    ensures FromCrcBytes(four) == (four[0] as bv32) | ((four[1] as bv32) << 8) | ((four[2] as bv32) << 16) | ((four[3] as bv32) << 24)
  {
  }

  // ---- The image ---------------------------------------------------------------------------

  datatype Font = Font(codepoints: seq<nat>, glyphs: seq<Pixels>)

  /** build_charset sorts a set of characters of the basic plane; one glyph is rendered for each. */
  ghost predicate IsFont(f: Font) {
    && |f.codepoints| == |f.glyphs| <= 20000
    && (forall i :: 0 <= i < |f.codepoints| ==> f.codepoints[i] < 0x1_0000)
    && Ascending(f.codepoints)
    && forall i :: 0 <= i < |f.glyphs| ==> IsGlyph(f.glyphs[i])
  }

  ghost predicate Ascending(s: seq<nat>) { forall i, j :: 0 <= i < j < |s| ==> s[i] < s[j] }

  // ---- The character set -------------------------------------------------------------------

  /** The smallest element, for the sort by code point. */
  method Least(chars: set<nat>) returns (least: nat)
    requires chars != {}
    ensures least in chars && forall c :: c in chars ==> least <= c
  {
    least :| least in chars;
    var rest := chars - {least};
    while rest != {}
      invariant rest <= chars && least in chars
      invariant forall c :: c in chars && c !in rest ==> least <= c
    {
      var c :| c in rest;
      if c < least {
        least := c;
      }
      rest := rest - {c};
    }
  }

  method Sorted(chars: set<nat>) returns (sorted: seq<nat>)
    ensures Ascending(sorted) && |sorted| == |chars|
    ensures forall c :: c in sorted <==> c in chars
  {
    sorted := [];
    var rest := chars;
    while rest != {}
      invariant Ascending(sorted) && |sorted| + |rest| == |chars|
      invariant forall c :: c in chars <==> c in sorted || c in rest
      invariant forall c, d :: c in sorted && d in rest ==> c < d
    {
      var least := Least(rest);
      forall i | 0 <= i < |sorted| ensures sorted[i] < least {
        assert sorted[i] in sorted;
      }
      sorted := sorted + [least];
      rest := rest - {least};
    }
  }

  /**
    build_charset: printable ASCII and every character of the basic plane that a double-byte code decodes to, in
    ascending order without repetition. `decoded` is the GB2312 table, with a negative entry for an undecodable code.
   */
  method BuildCharset(decoded: seq<int>) returns (charset: seq<nat>)
    ensures Ascending(charset) && |charset| <= 95 + |decoded|
    ensures forall c: int :: c in charset <==> 0x20 <= c <= 0x7E || (c in decoded && 0 <= c <= 0xFFFF)
  {
    var chars: set<nat> := {};
    for c := 0x20 to 0x7F
      invariant |chars| <= c - 0x20
      invariant forall x: int :: x in chars <==> 0x20 <= x < c
    {
      chars := chars + {c};
    }
    for i := 0 to |decoded|
      invariant |chars| <= 95 + i
      invariant forall x: int :: x in chars <==> 0x20 <= x <= 0x7E || (x in decoded[..i] && 0 <= x <= 0xFFFF)
    {
      assert decoded[..i + 1] == decoded[..i] + [decoded[i]];
      if 0 <= decoded[i] <= 0xFFFF {
        chars := chars + {decoded[i]};
      }
    }
    assert decoded[..|decoded|] == decoded;
    charset := Sorted(chars);
  }

  function IndexBlob(codepoints: seq<nat>): (b: seq<Byte>)
    ensures |b| == 2 * |codepoints|
  {
    seq(2 * |codepoints|, k requires 0 <= k < 2 * |codepoints| => Le16(codepoints[k / 2])[k % 2])
  }

  ghost function BitmapBlob(glyphs: seq<Pixels>): (b: seq<Byte>)
    requires forall i :: 0 <= i < |glyphs| ==> IsGlyph(glyphs[i])
    ensures |b| == 32 * |glyphs|
  {
    seq(32 * |glyphs|, k requires 0 <= k < 32 * |glyphs| => Packed(glyphs[k / 32])[k % 32])
  }

  ghost function Payload(f: Font): (b: seq<Byte>)
    requires IsFont(f)
    ensures |b| == 34 * |f.codepoints|
  {
    IndexBlob(f.codepoints) + BitmapBlob(f.glyphs)
  }

  /** "ZBFT", version, width, height and depth. */
  const PREAMBLE: seq<Byte> := [0x5A, 0x42, 0x46, 0x54, 1, 16, 16, 1]

  ghost function Header(f: Font): (b: seq<Byte>)
    requires IsFont(f)
    ensures |b| == HEADER_SIZE
  {
    PREAMBLE + Le32(|f.codepoints|) + CrcBytes(ReferenceCrc(Payload(f)))
  }

  ghost function Image(f: Font): (b: seq<Byte>)
    requires IsFont(f)
    ensures |b| == HEADER_SIZE + 34 * |f.codepoints|
  {
    Header(f) + Payload(f)
  }

  method RenderAll(glyphs: seq<Pixels>) returns (blob: seq<Byte>)
    requires forall k :: 0 <= k < |glyphs| ==> IsGlyph(glyphs[k])
    ensures blob == BitmapBlob(glyphs)
  {
    blob := [];
    for i := 0 to |glyphs|
      invariant blob == BitmapBlob(glyphs[..i])
    {
      var glyph := RenderGlyph(glyphs[i]);
      BitmapBlobGrows(glyphs, i);
      blob := blob + glyph[..];
    }
    assert glyphs[..|glyphs|] == glyphs;
  }

  /** The builder: index, glyphs, and a header computed from both. */
  method BuildImage(f: Font) returns (image: seq<Byte>)
    requires IsFont(f)
    ensures image == Image(f)
  {
    var bitmaps := RenderAll(f.glyphs);
    var payload: seq<Byte> := IndexBlob(f.codepoints) + bitmaps;
    var header := PREAMBLE + Le32(|f.codepoints|) + CrcBytes(ReferenceCrc(payload));
    image := header + payload;
  }

  lemma BitmapBlobGrows(glyphs: seq<Pixels>, i: nat)
    requires i < |glyphs| && forall k :: 0 <= k < |glyphs| ==> IsGlyph(glyphs[k])
    ensures BitmapBlob(glyphs[..i + 1]) == BitmapBlob(glyphs[..i]) + Packed(glyphs[i])
  {
    forall k | 0 <= k < 32 * (i + 1)
      ensures BitmapBlob(glyphs[..i + 1])[k] == (BitmapBlob(glyphs[..i]) + Packed(glyphs[i]))[k]
    {
      if k >= 32 * i {
        assert k / 32 == i && k % 32 == k - 32 * i;
      }
    }
  }

  ghost predicate BeginsWithImage(cells: seq<Byte>, f: Font)
    requires IsFont(f)
  {
    |Image(f)| <= |cells| && cells[..|Image(f)|] == Image(f)
  }

  /** The file begins with "ZBFT", version 1, 16 by 16 pixels of one bit. */
  lemma ImageBegins(f: Font)
    requires IsFont(f)
    ensures Image(f)[..8] == [0x5A, 0x42, 0x46, 0x54, 1, 16, 16, 1]
  {
    assert Image(f)[..8] == Header(f)[..8] == PREAMBLE;
  }

  lemma HeaderFieldsOf(f: Font)
    requires IsFont(f)
    ensures Header(f)[..4] == PREAMBLE[..4]
    ensures Header(f)[8..12] == Le32(|f.codepoints|) && Header(f)[12..16] == CrcBytes(ReferenceCrc(Payload(f)))
  {
    var fields := Le32(|f.codepoints|) + CrcBytes(ReferenceCrc(Payload(f)));
    assert Header(f) == PREAMBLE + fields;
    assert Header(f)[8..12] == fields[..4] && Header(f)[12..16] == fields[4..8];
  }

  lemma HeaderLayout(f: Font, cells: seq<Byte>)
    requires IsFont(f) && BeginsWithImage(cells, f)
    ensures cells[..4] == PREAMBLE[..4]
    ensures cells[8..12] == Le32(|f.codepoints|) && cells[12..16] == CrcBytes(ReferenceCrc(Payload(f)))
    ensures cells[16..16 + 34 * |f.codepoints|] == Payload(f)
  {
    HeaderFieldsOf(f);
    PartsOfPrefix(cells, Header(f), Payload(f));
    assert cells[..16][..4] == cells[..4] && cells[..16][8..12] == cells[8..12] && cells[..16][12..16] == cells[12..16];
  }

  lemma PartsOfPrefix<T>(s: seq<T>, first: seq<T>, second: seq<T>)
    requires |first| + |second| <= |s| && s[..|first| + |second|] == first + second
    ensures s[..|first|] == first && s[|first|..|first| + |second|] == second
  {
    assert s[..|first|] == s[..|first| + |second|][..|first|];
    assert s[|first|..|first| + |second|] == s[..|first| + |second|][|first|..];
  }

  lemma SliceOfSlice<T>(s: seq<T>, from: nat, to: nat, lo: nat, hi: nat)
    requires from <= to <= |s| && lo <= hi <= to - from
    ensures s[from..to][lo..hi] == s[from + lo..from + hi]
  {
    forall k | 0 <= k < hi - lo ensures s[from..to][lo..hi][k] == s[from + lo..from + hi][k] {
      assert s[from..to][lo..hi][k] == s[from..to][lo + k] == s[from + (lo + k)];
    }
  }

  lemma SliceIs<T>(s: seq<T>, from: nat, to: nat, lo: nat, hi: nat, whole: seq<T>, part: seq<T>)
    requires from <= to <= |s| && lo <= hi <= to - from
    requires s[from..to] == whole && whole[lo..hi] == part
    ensures s[from + lo..from + hi] == part
  {
    SliceOfSlice(s, from, to, lo, hi);
  }

  /** A medium that begins with the image holds every index entry and every glyph at the offsets the reader uses. */
  lemma EntryLayout(f: Font, cells: seq<Byte>, i: nat)
    requires IsFont(f) && BeginsWithImage(cells, f) && i < |f.codepoints|
    ensures cells[16 + 2 * i..16 + 2 * i + 2] == Le16(f.codepoints[i])
    ensures var at := 16 + 2 * |f.codepoints| + 32 * i; cells[at..at + 32] == Packed(f.glyphs[i])
  {
    IndexLayout(f, cells, i);
    GlyphLayout(f, cells, i);
  }

  lemma IndexLayout(f: Font, cells: seq<Byte>, i: nat)
    requires IsFont(f) && BeginsWithImage(cells, f) && i < |f.codepoints|
    ensures cells[16 + 2 * i..16 + 2 * i + 2] == Le16(f.codepoints[i])
  {
    HeaderLayout(f, cells);
    IndexEntry(f, i);
    SliceIs(cells, 16, 16 + 34 * |f.codepoints|, 2 * i, 2 * i + 2, Payload(f), Le16(f.codepoints[i]));
  }

  lemma GlyphLayout(f: Font, cells: seq<Byte>, i: nat)
    requires IsFont(f) && BeginsWithImage(cells, f) && i < |f.codepoints|
    ensures var at := 16 + 2 * |f.codepoints| + 32 * i; cells[at..at + 32] == Packed(f.glyphs[i])
  {
    var from := 2 * |f.codepoints| + 32 * i;
    HeaderLayout(f, cells);
    GlyphEntry(f, i);
    assert Payload(f)[from..from + 32] == Packed(f.glyphs[i]);
    SliceIs(cells, 16, 16 + 34 * |f.codepoints|, from, from + 32, Payload(f), Packed(f.glyphs[i]));
  }

  lemma IndexEntry(f: Font, i: nat)
    requires IsFont(f) && i < |f.codepoints|
    ensures Payload(f)[2 * i..2 * i + 2] == Le16(f.codepoints[i])
  {
    var blob := IndexBlob(f.codepoints);
    assert (2 * i + 1) / 2 == i && (2 * i + 1) % 2 == 1 && 2 * i / 2 == i && 2 * i % 2 == 0;
    assert blob[2 * i] == Le16(f.codepoints[i])[0] && blob[2 * i + 1] == Le16(f.codepoints[i])[1];
    assert Payload(f)[2 * i..2 * i + 2] == blob[2 * i..2 * i + 2] == Le16(f.codepoints[i]);
  }

  lemma BitmapEntry(glyphs: seq<Pixels>, i: nat)
    requires i < |glyphs| && forall k :: 0 <= k < |glyphs| ==> IsGlyph(glyphs[k])
    ensures BitmapBlob(glyphs)[32 * i..32 * i + 32] == Packed(glyphs[i])
  {
    var blob := BitmapBlob(glyphs);
    forall k | 0 <= k < 32 ensures blob[32 * i + k] == Packed(glyphs[i])[k] {
      assert (32 * i + k) / 32 == i && (32 * i + k) % 32 == k;
    }
  }

  lemma GlyphEntry(f: Font, i: nat)
    requires IsFont(f) && i < |f.codepoints|
    ensures var n := |f.codepoints|; Payload(f)[2 * n + 32 * i..2 * n + 32 * i + 32] == Packed(f.glyphs[i])
  {
    var n, blob := |f.codepoints|, BitmapBlob(f.glyphs);
    BitmapEntry(f.glyphs, i);
    assert Payload(f)[2 * n..][32 * i..32 * i + 32] == blob[32 * i..32 * i + 32];
  }
}
