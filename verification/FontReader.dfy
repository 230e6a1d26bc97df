/**
  Reading the font back: the verification of applications/font_update.c and the glyph lookup of
  applications/font_app.c, and the whole pipeline from builder to lookup.
 */
module FontReader {
  import opened Crc32
  import opened FontFlash
  import opened FontFormat

  datatype FontError = Fine | IoError | BadContents | NoMemory | BadLength

  datatype HeaderFields = HeaderFields(glyphCnt: nat, crc: bv32)

  predicate HasMagic(cells: seq<Byte>) { |cells| >= 16 && cells[..4] == PREAMBLE[..4] }

  function HeaderOf(cells: seq<Byte>): HeaderFields
    requires |cells| >= 16
  {
    HeaderFields(FromLe32(cells[8..12]), FromCrcBytes(cells[12..16]))
  }

  lemma ImageHeader(f: Font, cells: seq<Byte>)
    requires IsFont(f) && BeginsWithImage(cells, f)
    ensures HasMagic(cells) && HeaderOf(cells) == HeaderFields(|f.codepoints|, ReferenceCrc(Payload(f)))
  {
    HeaderLayout(f, cells);
    Le32RoundTrip(|f.codepoints|);
    CrcBytesRoundTrip(ReferenceCrc(Payload(f)));
  }

  // ---- Verification ------------------------------------------------------------------------

  /** font_read_header. */
  method ReadHeader(part: NorPartition) returns (err: FontError, header: HeaderFields)
    ensures err.Fine? ==> HasMagic(part.cells) && header == HeaderOf(part.cells)
    ensures err.BadContents? ==> !HasMagic(part.cells)
    ensures part.reliable ==> (err.Fine? <==> HasMagic(part.cells))
  {
    header := HeaderFields(0, 0);
    var ok, raw := part.Read(0, 16);
    if !ok {
      return IoError, header;
    }
    header := HeaderFields(FromLe32(raw[8..12]), FromCrcBytes(raw[12..16]));
    assert raw[8..12] == part.cells[8..12] && raw[12..16] == part.cells[12..16] && raw[..4] == part.cells[..4];
    if raw[..4] != PREAMBLE[..4] {
      return BadContents, header;
    }
    return Fine, header;
  }

  /** The number of bytes the CRC is taken over, in the 32-bit arithmetic of the code. */
  function CoveredLength(glyphCnt: nat): nat { (glyphCnt * 2 + glyphCnt * 32) % 0x1_0000_0000 }

  /** The check covers the whole payload exactly up to the largest count whose payload length fits 32 bits. */
  lemma CoversWholePayload(glyphCnt: nat)
    ensures CoveredLength(glyphCnt) == 34 * glyphCnt <==> glyphCnt <= 126_322_567
  {
    if glyphCnt > 126_322_567 {
      assert CoveredLength(glyphCnt) < 0x1_0000_0000 <= 34 * glyphCnt;
    }
  }

  /** One glyph more, and 16 bytes are checked instead of four gigabytes. */
  lemma CoveredLengthWraps()
    ensures CoveredLength(126_322_568) == 16 && 34 * 126_322_568 == 0x1_0000_0010
  {
  }

  ghost predicate CrcHolds(cells: seq<Byte>, header: HeaderFields) {
    && 16 + CoveredLength(header.glyphCnt) <= |cells|
    && ReferenceCrc(cells[16..16 + CoveredLength(header.glyphCnt)]) == header.crc
  }

  /** font_verify_crc: the CRC of section 8 of RFC 1952 over everything after the header. */
  method VerifyCrc(part: NorPartition, header: HeaderFields, hasMemory: bool) returns (err: FontError, computed: bv32)
    requires 16 <= |part.cells| < 0x1_0000_0000 - 16
    ensures err.Fine? ==> CrcHolds(part.cells, header) && computed == header.crc
    ensures err.BadContents? ==> !CrcHolds(part.cells, header)
    ensures part.reliable && hasMemory ==> (err.Fine? <==> CrcHolds(part.cells, header))
  {
    var payloadLen := CoveredLength(header.glyphCnt);
    computed := 0;
    if (16 + payloadLen) % 0x1_0000_0000 > |part.cells| {
      return BadLength, computed;
    }
    if !hasMemory {
      return NoMemory, computed;
    }
    var ok;
    ok, computed := ReadCrc(part, payloadLen);
    if !ok {
      return IoError, computed;
    }
    return if computed == header.crc then Fine else BadContents, computed;
  }

  /** Its loop: chunks of at most 1 KiB. */
  method ReadCrc(part: NorPartition, length: nat) returns (ok: bool, computed: bv32)
    requires 16 <= |part.cells|
    ensures ok ==> 16 + length <= |part.cells| && computed == ReferenceCrc(part.cells[16..16 + length])
    ensures part.reliable && 16 + length <= |part.cells| ==> ok
  {
    var offset, remain, state := 16, length, 0xFFFF_FFFF;
    while remain > 0
      invariant 16 <= offset <= |part.cells| && offset + remain == 16 + length
      invariant state == Update(0xFFFF_FFFF, part.cells[16..offset])
    {
      var chunk := if remain > 1024 then 1024 else remain;
      var read, buf := part.Read(offset, chunk);
      if !read {
        return false, 0;
      }
      UpdateConcat(0xFFFF_FFFF, part.cells[16..offset], buf);
      assert part.cells[16..offset] + buf == part.cells[16..offset + chunk];
      state := CrcUpdate(state, buf);
      offset := offset + chunk;
      remain := remain - chunk;
    }
    CrcMatchesReference(part.cells[16..offset]);
    return true, !state;
  }

  // ---- Lookup ------------------------------------------------------------------------------

  /** Entry i of the index table, and where its glyph is read from. */
  function IndexEntryAt(cells: seq<Byte>, i: nat): nat
    requires 16 + 2 * i + 2 <= |cells|
  {
    FromLe16(cells[16 + 2 * i..16 + 2 * i + 2])
  }

  /** What font_app_init asks of the medium. */
  predicate InitAccepts(cells: seq<Byte>) {
    && HasMagic(cells) && 0 < HeaderOf(cells).glyphCnt <= 20000
    && 16 + 2 * HeaderOf(cells).glyphCnt <= |cells|
  }

  class FontApp {
    const part: NorPartition
    const bitmapBuf: array<Byte>
    var glyphCnt: nat
    var index: seq<nat>
    var ready: bool

    /** The cached index is the one in flash. */
    ghost predicate Valid()
      reads this, part
    {
      && bitmapBuf.Length == BYTES_PER_GLYPH
      && (ready ==>
            && |index| == glyphCnt && 0 < glyphCnt <= 20000
            && 16 + 2 * glyphCnt <= |part.cells|
            && forall i :: 0 <= i < glyphCnt ==> index[i] == IndexEntryAt(part.cells, i))
    }

    constructor (part: NorPartition)
      ensures this.part == part && !ready && Valid() && fresh(bitmapBuf)
    {
      this.part := part;
      bitmapBuf := new Byte[BYTES_PER_GLYPH];
      glyphCnt, index, ready := 0, [], false;
    }

    /** font_app_init. The CRC is not looked at here. */
    method Init(hasMemory: bool) returns (err: FontError)
      requires Valid()
      modifies this
      ensures Valid() && (ready <==> err.Fine?)
      ensures old(ready) ==> err.Fine? && unchanged(this)
      ensures err.Fine? && !old(ready) ==> HasMagic(part.cells) && glyphCnt == HeaderOf(part.cells).glyphCnt
      ensures !old(ready) && part.reliable && hasMemory ==>
                (err.Fine? <==> HasMagic(part.cells) && 0 < FromLe32(part.cells[8..12]) <= 20000
                                && 16 + 2 * FromLe32(part.cells[8..12]) <= |part.cells|)
    {
      if ready {
        return Fine;
      }
      var header;
      err, header := ReadHeader(part);
      if !err.Fine? {
        return;
      }
      if header.glyphCnt == 0 || header.glyphCnt > 20000 {
        return BadContents;
      }
      glyphCnt := header.glyphCnt;
      if !hasMemory {
        return NoMemory;
      }
      var ok;
      ok, index := ReadIndex(glyphCnt);
      if !ok {
        return IoError;
      }
      ready := true;
      return Fine;
    }

    /** The index table, read as little-endian words; nothing is kept of a failed read. */
    method ReadIndex(cnt: nat) returns (ok: bool, table: seq<nat>)
      ensures !ok ==> table == []
      ensures ok ==> 16 + 2 * cnt <= |part.cells| && |table| == cnt
      ensures ok ==> forall i :: 0 <= i < cnt ==> table[i] == IndexEntryAt(part.cells, i)
      ensures part.reliable && 16 + 2 * cnt <= |part.cells| ==> ok
    {
      var raw;
      ok, raw := part.Read(16, cnt * 2);
      if !ok {
        return false, [];
      }
      table := seq(cnt, i requires 0 <= i < cnt => FromLe16(raw[2 * i..2 * i + 2]));
      forall i | 0 <= i < cnt ensures table[i] == IndexEntryAt(part.cells, i) {
        SliceOfSlice(part.cells, 16, 16 + 2 * cnt, 2 * i, 2 * i + 2);
      }
    }

    /** font_find_glyph: binary search, which only an ascending index makes complete. */
    method FindGlyph(letter: nat) returns (idx: int)
      requires Valid() && ready
      ensures -1 <= idx < glyphCnt
      ensures idx >= 0 ==> index[idx] == letter
      ensures Ascending(index) && idx == -1 ==> letter !in index
    {
      var lo, hi := 0, glyphCnt - 1;
      while lo <= hi
        invariant 0 <= lo <= hi + 1 <= glyphCnt
        invariant Ascending(index) ==> forall i :: 0 <= i < lo ==> index[i] < letter
        invariant Ascending(index) ==> forall i :: hi < i < glyphCnt ==> letter < index[i]
      {
        var mid := lo + (hi - lo) / 2;
        var cp := index[mid];
        assert cp == index[mid];
        if cp == letter {
          return mid;
        }
        if cp < letter {
          lo := mid + 1;
        } else {
          hi := mid - 1;
        }
      }
      return -1;
    }

    /** font_get_glyph_bitmap_cb: null for an unknown character, otherwise the buffer holding its 32 bytes. */
    method GlyphBitmap(letter: nat) returns (bitmap: array?<Byte>, ghost at: nat)
      requires Valid()
      modifies bitmapBuf
      ensures Valid()
      ensures bitmap != null ==>
                bitmap == bitmapBuf && ready && at < glyphCnt && index[at] == letter && HoldsGlyph(at)
      ensures ready && part.reliable && 16 + 34 * glyphCnt <= |part.cells| && Ascending(index) ==>
                (bitmap != null <==> letter in index)
    {
      if !ready {
        return null, 0;
      }
      var idx := FindGlyph(letter);
      if idx < 0 {
        return null, 0;
      }
      var offset := 16 + glyphCnt * 2 + idx * BYTES_PER_GLYPH;
      var ok, data := part.Read(offset, BYTES_PER_GLYPH);
      if !ok {
        return null, 0;
      }
      forall k | 0 <= k < BYTES_PER_GLYPH {
        bitmapBuf[k] := data[k];
      }
      return bitmapBuf, idx;
    }

    /** The buffer holds glyph i of the partition. */
    ghost predicate HoldsGlyph(i: nat)
      reads this, part, bitmapBuf
    {
      var at := 16 + 2 * glyphCnt + 32 * i;
      at + 32 <= |part.cells| && bitmapBuf[..] == part.cells[at..at + 32]
    }
  }

  // ---- Acceptance and verification ---------------------------------------------------------

  /** The medium with another CRC field. */
  function WithCrc(cells: seq<Byte>, crc: bv32): (other: seq<Byte>)
    requires |cells| >= 16
    ensures |other| == |cells|
  {
    cells[..12] + CrcBytes(crc) + cells[16..]
  }

  lemma OtherFieldsStay(cells: seq<Byte>, crc: bv32)
    requires |cells| >= 16
    ensures var other := WithCrc(cells, crc);
            other[..4] == cells[..4] && other[8..12] == cells[8..12] && other[12..16] == CrcBytes(crc) && other[16..] == cells[16..]
  {
  }

  /** Acceptance does not depend on the CRC field at all. */
  lemma InitIgnoresCrc(cells: seq<Byte>, crc: bv32)
    requires |cells| >= 16
    ensures InitAccepts(WithCrc(cells, crc)) <==> InitAccepts(cells)
    ensures HeaderOf(WithCrc(cells, crc)) == HeaderFields(HeaderOf(cells).glyphCnt, crc)
  {
    OtherFieldsStay(cells, crc);
    CrcBytesRoundTrip(crc);
  }

  /** Of all values of the CRC field exactly one verifies, if the payload is there at all. */
  lemma OneCrcVerifies(cells: seq<Byte>, crc: bv32)
    requires |cells| >= 16
    ensures var other, length := WithCrc(cells, crc), CoveredLength(HeaderOf(cells).glyphCnt);
            CrcHolds(other, HeaderOf(other)) <==> 16 + length <= |cells| && crc == ReferenceCrc(cells[16..16 + length])
  {
    var other, length := WithCrc(cells, crc), CoveredLength(HeaderOf(cells).glyphCnt);
    InitIgnoresCrc(cells, crc);
    OtherFieldsStay(cells, crc);
    if 16 + length <= |cells| {
      assert other[16..16 + length] == other[16..][..length] == cells[16..][..length] == cells[16..16 + length];
    }
  }

  /** So every accepted medium has accepted ones beside it that do not verify. */
  lemma AcceptedButCorrupt(cells: seq<Byte>, crc: bv32)
    requires InitAccepts(cells) && CrcHolds(cells, HeaderOf(cells)) && crc != HeaderOf(cells).crc
    ensures var other := WithCrc(cells, crc); InitAccepts(other) && !CrcHolds(other, HeaderOf(other))
  {
    InitIgnoresCrc(cells, crc);
    OneCrcVerifies(cells, crc);
  }

  /** A medium of one glyph with this CRC field, index entry and bitmap. */
  function OneGlyph(crc: bv32, payload: seq<Byte>): seq<Byte> { PREAMBLE + Le32(1) + CrcBytes(crc) + payload }

  lemma OneGlyphHeader(crc: bv32, payload: seq<Byte>)
    ensures var cells := OneGlyph(crc, payload);
            HasMagic(cells) && HeaderOf(cells) == HeaderFields(1, crc) && cells[16..] == payload
  {
    var cells, fields := OneGlyph(crc, payload), CrcBytes(crc);
    assert cells[..4] == PREAMBLE[..4] && cells[8..12] == Le32(1) && cells[12..16] == fields;
    Le32RoundTrip(1);
    CrcBytesRoundTrip(crc);
  }

  lemma OneGlyphAccepted(crc: bv32, payload: seq<Byte>)
    requires |payload| == 34
    ensures var cells := OneGlyph(crc, payload);
            InitAccepts(cells) && (CrcHolds(cells, HeaderOf(cells)) <==> crc == ReferenceCrc(payload))
  {
    OneGlyphHeader(crc, payload);
    CoversWholePayload(1);
    assert OneGlyph(crc, payload)[16..50] == OneGlyph(crc, payload)[16..];
  }

  /** The input: one blank glyph, and its correct CRC with the lowest bit flipped, is a font to font_app_init. */
  lemma BlankGlyphWithWrongCrc() returns (cells: seq<Byte>)
    ensures |cells| == 50 && cells[..12] == PREAMBLE + Le32(1) && forall k :: 16 <= k < 50 ==> cells[k] == 0
    ensures InitAccepts(cells) && !CrcHolds(cells, HeaderOf(cells))
  {
    var payload: seq<Byte> := seq(34, _ => 0);
    var crc := ReferenceCrc(payload);
    FlippedBitDiffers(crc);
    OneGlyphHeader(crc ^ 1, payload);
    OneGlyphAccepted(crc ^ 1, payload);
    cells := OneGlyph(crc ^ 1, payload);
    assert forall k :: 16 <= k < 50 ==> cells[k] == cells[16..][k - 16];
  }

  lemma FlippedBitDiffers(crc: bv32)
    ensures crc ^ 1 != crc
  {
  }

  /** What a caller can do instead: verify first, as font_update does. Then a ready font is a verified one. */
  method InitVerified(app: FontApp, hasMemory: bool) returns (err: FontError)
    requires app.Valid() && !app.ready && 16 <= |app.part.cells| < 0x1_0000_0000 - 16
    modifies app
    ensures app.Valid() && (app.ready <==> err.Fine?)
    ensures app.ready ==> CrcHolds(app.part.cells, HeaderOf(app.part.cells))
    ensures app.part.reliable && hasMemory ==>
              (app.ready <==> InitAccepts(app.part.cells) && CrcHolds(app.part.cells, HeaderOf(app.part.cells)))
  {
    var header;
    err, header := ReadHeader(app.part);
    if !err.Fine? {
      return;
    }
    var computed;
    err, computed := VerifyCrc(app.part, header, hasMemory);
    if !err.Fine? {
      return;
    }
    err := app.Init(hasMemory);
  }

  // ---- The whole pipeline ------------------------------------------------------------------

  /** font_update after the transfer: the header must be there and the CRC must hold. */
  method FontUpdate(receiver: FontReceiver, name: seq<Byte>, file: seq<Byte>, hasMemory: bool) returns (ok: bool)
    requires forall i :: 0 <= i < |name| ==> name[i] != 0
    requires receiver.blockBuf.Length == ERASE_BLOCK && |receiver.part.cells| % 4096 == 0
    requires |receiver.part.cells| < 0x1_0000_0000 - 16
    modifies receiver, receiver.blockBuf, receiver.part
    ensures |receiver.part.cells| == |old(receiver.part.cells)|
    ensures ok ==> |file| <= |old(receiver.part.cells)| && receiver.part.cells == Flashed(old(receiver.part.cells), file)
                   && HasMagic(receiver.part.cells) && CrcHolds(receiver.part.cells, HeaderOf(receiver.part.cells))
    ensures receiver.part.reliable && hasMemory && |file| <= |old(receiver.part.cells)| ==>
              var image := Flashed(old(receiver.part.cells), file);
              HasMagic(image) && CrcHolds(image, HeaderOf(image)) ==> ok
  {
    ok := SendFile(receiver, name, file);
    if !ok {
      return;
    }
    var err, header := ReadHeader(receiver.part);
    if !err.Fine? {
      return false;
    }
    var computed;
    err, computed := VerifyCrc(receiver.part, header, hasMemory);
    return err.Fine?;
  }

  ghost predicate HoldsFont(cells: seq<Byte>, f: Font)
    requires IsFont(f)
  {
    && BeginsWithImage(cells, f) && HasMagic(cells) && HeaderOf(cells).glyphCnt == |f.codepoints|
    && CrcHolds(cells, HeaderOf(cells))
  }

  lemma ImagePrefix(f: Font, original: seq<Byte>)
    requires IsFont(f) && |Image(f)| <= |original| && |original| % 4096 == 0
    ensures BeginsWithImage(Flashed(original, Image(f)), f)
  {
    FlashedBeginsWith(original, Image(f));
  }

  lemma FlashedBeginsWith(original: seq<Byte>, payload: seq<Byte>)
    requires |payload| <= |original| && |original| % 4096 == 0
    ensures Flashed(original, payload)[..|payload|] == payload
  {
  }

  lemma CrcHoldsOver(cells: seq<Byte>, glyphCnt: nat, payload: seq<Byte>)
    requires glyphCnt <= 20000 && 16 + 34 * glyphCnt <= |cells| && cells[16..16 + 34 * glyphCnt] == payload
    ensures CrcHolds(cells, HeaderFields(glyphCnt, ReferenceCrc(payload)))
  {
    CoversWholePayload(glyphCnt);
  }

  lemma ImageCrcHolds(f: Font, cells: seq<Byte>)
    requires IsFont(f) && BeginsWithImage(cells, f)
    ensures CrcHolds(cells, HeaderFields(|f.codepoints|, ReferenceCrc(Payload(f))))
  {
    HeaderLayout(f, cells);
    CrcHoldsOver(cells, |f.codepoints|, Payload(f));
  }

  lemma ImageVerifies(f: Font, cells: seq<Byte>)
    requires IsFont(f) && BeginsWithImage(cells, f)
    ensures HoldsFont(cells, f)
  {
    ImageHeader(f, cells);
    ImageCrcHolds(f, cells);
  }

  /** What a flashed image holds, whatever lies behind it. */
  lemma FlashedImage(f: Font, original: seq<Byte>)
    requires IsFont(f) && |Image(f)| <= |original| && |original| % 4096 == 0
    ensures HoldsFont(Flashed(original, Image(f)), f)
  {
    ImagePrefix(f, original);
    ImageVerifies(f, Flashed(original, Image(f)));
  }

  /** The index read from a flashed image is the font's own, hence ascending; glyph i is the font's glyph i. */
  lemma CachedIndex(f: Font, cells: seq<Byte>, index: seq<nat>)
    requires IsFont(f) && BeginsWithImage(cells, f) && |index| == |f.codepoints|
    requires forall i :: 0 <= i < |index| ==> index[i] == IndexEntryAt(cells, i)
    ensures index == f.codepoints && Ascending(index)
  {
    forall i | 0 <= i < |index| ensures index[i] == f.codepoints[i] {
      IndexLayout(f, cells, i);
      Le16RoundTrip(f.codepoints[i]);
    }
  }

  /** Looking a character up on a medium that begins with the image. */
  method LookUp(app: FontApp, letter: nat, ghost f: Font) returns (bitmap: array?<Byte>)
    requires app.Valid() && app.ready && IsFont(f) && HoldsFont(app.part.cells, f)
    requires app.glyphCnt == |f.codepoints|
    modifies app.bitmapBuf
    ensures app.part.reliable ==> (bitmap != null <==> letter in f.codepoints)
    ensures bitmap != null ==> IsGlyphOf(f, letter, bitmap[..])
  {
    CachedIndex(f, app.part.cells, app.index);
    ghost var at;
    bitmap, at := app.GlyphBitmap(letter);
    if bitmap != null {
      GlyphLayout(f, app.part.cells, at);
    }
  }

  ghost predicate IsGlyphOf(f: Font, letter: nat, data: seq<Byte>)
    requires IsFont(f)
  {
    exists i :: 0 <= i < |f.codepoints| && f.codepoints[i] == letter && data == Packed(f.glyphs[i])
  }

  /** Building a font and flashing it succeeds on reliable flash that it fits, and leaves the font on the medium. */
  method BuildAndFlash(f: Font, name: seq<Byte>, receiver: FontReceiver) returns (installed: bool)
    requires IsFont(f) && forall i :: 0 <= i < |name| ==> name[i] != 0
    requires receiver.blockBuf.Length == ERASE_BLOCK && |receiver.part.cells| % 4096 == 0
    requires |receiver.part.cells| < 0x1_0000_0000 - 16
    modifies receiver, receiver.blockBuf, receiver.part
    ensures |receiver.part.cells| == |old(receiver.part.cells)|
    ensures installed ==> HoldsFont(receiver.part.cells, f)
    ensures receiver.part.reliable && 16 + 34 * |f.codepoints| <= |receiver.part.cells| ==> installed
  {
    var image := BuildImage(f);
    if |image| <= |receiver.part.cells| {
      FlashedImage(f, receiver.part.cells);
    }
    installed := FontUpdate(receiver, name, image, true);
  }

  /** Building a font, flashing it and looking a character up: its own 32 bytes, or nothing if it is not in the font. */
  method BuildFlashLookUp(f: Font, name: seq<Byte>, receiver: FontReceiver, app: FontApp, letter: nat)
    returns (installed: bool, bitmap: array?<Byte>)
    requires IsFont(f) && forall i :: 0 <= i < |name| ==> name[i] != 0
    requires receiver.blockBuf.Length == ERASE_BLOCK && |receiver.part.cells| % 4096 == 0
    requires |receiver.part.cells| < 0x1_0000_0000 - 16
    requires app.part == receiver.part && app.Valid() && !app.ready && app.bitmapBuf != receiver.blockBuf
    modifies receiver, receiver.blockBuf, receiver.part, app, app.bitmapBuf
    ensures receiver.part.reliable && |f.codepoints| > 0 && 16 + 34 * |f.codepoints| <= |receiver.part.cells| ==>
              installed && (bitmap != null <==> letter in f.codepoints)
    ensures installed && bitmap != null ==> IsGlyphOf(f, letter, bitmap[..])
  {
    bitmap := null;
    installed := BuildAndFlash(f, name, receiver);
    if !installed {
      return;
    }
    var err := app.Init(true);
    if !err.Fine? {
      return false, null;
    }
    bitmap := LookUp(app, letter, f);
  }
}
