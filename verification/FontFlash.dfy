/**
  Flashing the font: the packetiser of fontlib/font_send.py, the YMODEM callbacks of
  applications/font_update.c with their 4 KiB sector buffer, and the NOR partition they write. The YMODEM
  protocol itself is not part of this model: packets arrive complete and in order.
 */
module FontFlash {
  import opened Crc32
  import opened FixedPoint
  import opened FontFormat
  import opened Streams

  const ERASE_BLOCK := 4096

  datatype RymCode = Ack | Can

  // ---- The flash ---------------------------------------------------------------------------

  function Programmed(cells: seq<Byte>, offset: nat, data: seq<Byte>): (r: seq<Byte>)
    requires offset + |data| <= |cells|
    ensures |r| == |cells|
  {
    seq(|cells|, k requires 0 <= k < |cells| => if offset <= k < offset + |data| then cells[k] & data[k - offset] else cells[k])
  }

  function Erased(cells: seq<Byte>, offset: nat, size: nat): (r: seq<Byte>)
    requires offset + size <= |cells|
    ensures |r| == |cells|
  {
    seq(|cells|, k requires 0 <= k < |cells| => if offset <= k < offset + size then 0xFF else cells[k])
  }

  /**
    NOR flash behind FAL: erasing sets bits, programming only clears them, and addresses outside the partition
    are refused. An operation on an unreliable part may fail and leave anything behind.
   */
  class NorPartition {
    const reliable: bool
    var cells: seq<Byte>

    constructor (initial: seq<Byte>, reliable: bool)
      ensures cells == initial && this.reliable == reliable
    {
      cells, this.reliable := initial, reliable;
    }

    method Disturb()
      modifies this
      ensures |cells| == |old(cells)|
    {
      var junk: seq<Byte> :| |junk| == |cells|;
      cells := junk;
    }

    method Erase(offset: nat, size: nat) returns (ok: bool)
      modifies this
      ensures |cells| == |old(cells)|
      ensures ok ==> offset + size <= |cells| && cells == Erased(old(cells), offset, size)
      ensures reliable && offset + size <= |cells| ==> ok
    {
      if offset + size > |cells| {
        return false;
      }
      if !reliable {
        var fails := *;
        if fails {
          Disturb();
          return false;
        }
      }
      cells := Erased(cells, offset, size);
      return true;
    }

    method Program(offset: nat, data: seq<Byte>) returns (ok: bool)
      modifies this
      ensures |cells| == |old(cells)|
      ensures ok ==> offset + |data| <= |cells| && cells == Programmed(old(cells), offset, data)
      ensures reliable && offset + |data| <= |cells| ==> ok
    {
      if offset + |data| > |cells| {
        return false;
      }
      if !reliable {
        var fails := *;
        if fails {
          Disturb();
          return false;
        }
      }
      cells := Programmed(cells, offset, data);
      return true;
    }

    method Read(offset: nat, size: nat) returns (ok: bool, data: seq<Byte>)
      ensures ok ==> offset + size <= |cells| && data == cells[offset..offset + size]
      ensures reliable && offset + size <= |cells| ==> ok
    {
      if offset + size > |cells| {
        return false, [];
      }
      var fails := *;
      if !reliable && fails {
        return false, [];
      }
      return true, cells[offset..offset + size];
    }
  }

  /** One sector rewritten: the data, erased cells up to the sector's end, and nothing else touched. */
  function SectorWritten(cells: seq<Byte>, offset: nat, data: seq<Byte>): (r: seq<Byte>)
    requires offset + ERASE_BLOCK <= |cells| && |data| <= ERASE_BLOCK
  {
    cells[..offset] + data + seq(ERASE_BLOCK - |data|, _ => 0xFF) + cells[offset + ERASE_BLOCK..]
  }

  /** Programming stores the data itself only because the sector was erased first. */
  lemma EraseThenProgram(cells: seq<Byte>, offset: nat, data: seq<Byte>)
    requires offset + ERASE_BLOCK <= |cells| && |data| <= ERASE_BLOCK
    ensures Programmed(Erased(cells, offset, ERASE_BLOCK), offset, data) == SectorWritten(cells, offset, data)
  {
    var written := Programmed(Erased(cells, offset, ERASE_BLOCK), offset, data);
    forall k | 0 <= k < |cells| ensures written[k] == SectorWritten(cells, offset, data)[k] {
      if offset <= k < offset + |data| { ErasedCellTakesData(data[k - offset]); }
    }
  }

  /** Without the erase a program can only clear bits: what was clear stays clear. */
  lemma ProgrammingOnlyClears(cells: seq<Byte>, offset: nat, data: seq<Byte>, k: nat)
    requires offset + |data| <= |cells| && k < |cells|
    ensures Programmed(cells, offset, data)[k] & cells[k] == Programmed(cells, offset, data)[k]
    ensures !(offset <= k < offset + |data|) ==> Programmed(cells, offset, data)[k] == cells[k]
  {
    if offset <= k < offset + |data| { AndClears(cells[k], data[k - offset]); }
  }

  lemma AndClears(x: Byte, y: Byte)
    ensures (x & y) & x == x & y
  {
  }

  lemma ErasedCellTakesData(b: Byte)
    ensures 0xFF & b == b
  {
  }

  // ---- The size field of packet 0 ----------------------------------------------------------

  function Digit(d: nat): Byte requires d < 10 { (48 + d) as bv8 }

  predicate IsDigit(b: Byte) { 48 <= ValueOf(b) <= 57 }

  function Decimal(n: nat): seq<Byte> {
    if n < 10 then [Digit(n)] else Decimal(n / 10) + [Digit(n % 10)]
  }

  function AtoiFrom(acc: int, s: seq<Byte>): int
    decreases |s|
  {
    if s == [] || !IsDigit(s[0]) then acc else AtoiFrom(10 * acc + ValueOf(s[0]) - 48, s[1..])
  }

  predicate IsSpace(b: Byte) { ValueOf(b) == 32 || 9 <= ValueOf(b) <= 13 }

  function Atoi(s: seq<Byte>): int
    decreases |s|
  {
    if s == [] then 0
    else if IsSpace(s[0]) then Atoi(s[1..])
    else if ValueOf(s[0]) == 45 then -AtoiFrom(0, s[1..])
    else if ValueOf(s[0]) == 43 then AtoiFrom(0, s[1..])
    else AtoiFrom(0, s)
  }

  function StrnLen(s: seq<Byte>, limit: nat): (n: nat)
    ensures n <= limit && n <= |s|
    decreases limit
  {
    if limit == 0 || s == [] || s[0] == 0 then 0 else 1 + StrnLen(s[1..], limit - 1)
  }

  /** What on_begin makes of "name NUL size ...": a size that is not positive counts as unknown. */
  function ReportedSize(packet: seq<Byte>): int {
    var nameLen := if packet == [] then 0 else StrnLen(packet, |packet| - 1);
    var size := if nameLen + 1 <= |packet| then Atoi(packet[nameLen + 1..]) else 0;
    if size <= 0 then -1 else size
  }

  function Padded(s: seq<Byte>, length: nat, filler: Byte): seq<Byte> {
    if |s| < length then s + seq(length - |s|, _ => filler) else s
  }

  /** The sender's packet 0. */
  function FilePacket(name: seq<Byte>, total: nat): seq<Byte> {
    var meta := name + [0] + Decimal(total) + [0];
    Padded(meta, if |meta| <= 128 then 128 else 1024, 0)
  }

  /** Packet 0 is 128 bytes when name and size fit, else 1024: the name, a NUL, the size, and NULs to the end. */
  lemma FilePacketShape(name: seq<Byte>, total: nat)
    ensures var used := |name| + |Decimal(total)| + 2;
            var packet := FilePacket(name, total);
            && |packet| == (if used <= 128 then 128 else if used <= 1024 then 1024 else used)
            && packet[..|name|] == name && packet[|name|] == 0
            && forall k :: |name| + 1 + |Decimal(total)| <= k < |packet| ==> packet[k] == 0
  {
  }

  lemma DigitValue(d: nat)
    requires d < 10
    ensures ValueOf(Digit(d)) == 48 + d
  {
    SmallRoundTrip(48 + d);
  }

  lemma AtoiTakesDigit(acc: int, d: nat, rest: seq<Byte>)
    requires d < 10
    ensures AtoiFrom(acc, [Digit(d)] + rest) == AtoiFrom(10 * acc + d, rest)
  {
    DigitValue(d);
    assert ([Digit(d)] + rest)[1..] == rest;
  }

  lemma DecimalSplits(n: nat, rest: seq<Byte>)
    requires n >= 10
    ensures Decimal(n) + rest == Decimal(n / 10) + ([Digit(n % 10)] + rest)
  {
  }

  lemma {:induction false} AtoiReadsDecimal(n: nat, rest: seq<Byte>)
    ensures AtoiFrom(0, Decimal(n) + rest) == AtoiFrom(n, rest)
  {
    if n < 10 {
      AtoiTakesDigit(0, n, rest);
    } else {
      AtoiReadsDecimal(n / 10, [Digit(n % 10)] + rest);
      AtoiTakesDigit(n / 10, n % 10, rest);
      DecimalSplits(n, rest);
    }
  }

  lemma {:induction false} DecimalStartsWithDigit(n: nat)
    ensures Decimal(n) != [] && IsDigit(Decimal(n)[0])
  {
    if n < 10 {
      DigitValue(n);
    } else {
      DecimalStartsWithDigit(n / 10);
    }
  }

  lemma {:induction false} StrnLenStops(name: seq<Byte>, rest: seq<Byte>, limit: nat)
    requires (forall i :: 0 <= i < |name| ==> name[i] != 0) && rest != [] && rest[0] == 0 && |name| <= limit
    ensures StrnLen(name + rest, limit) == |name|
  {
    if name == [] {
      assert name + rest == rest;
    } else {
      assert (name + rest)[1..] == name[1..] + rest;
      StrnLenStops(name[1..], rest, limit - 1);
    }
  }

  lemma AtoiOfDecimal(n: nat, tail: seq<Byte>)
    requires tail != [] && tail[0] == 0
    ensures Atoi(Decimal(n) + tail) == n
  {
    AtoiReadsDecimal(n, tail);
    DecimalStartsWithDigit(n);
    assert (Decimal(n) + tail)[0] == Decimal(n)[0];
  }

  /** Blanks before the number are skipped and a sign is taken. */
  lemma {:induction false} AtoiForms(blanks: seq<Byte>, n: nat, tail: seq<Byte>)
    requires (forall i :: 0 <= i < |blanks| ==> blanks[i] == 32 || blanks[i] == 9) && tail != [] && tail[0] == 0
    ensures Atoi(blanks + (Decimal(n) + tail)) == n
    ensures Atoi(blanks + ([45] + (Decimal(n) + tail))) + n == 0
    ensures Atoi(blanks + ([43] + (Decimal(n) + tail))) == n
  {
    if blanks == [] {
      SignedForms(n, tail);
    } else {
      AtoiForms(blanks[1..], n, tail);
      SkipBlank(blanks, Decimal(n) + tail);
      SkipBlank(blanks, [45] + (Decimal(n) + tail));
      SkipBlank(blanks, [43] + (Decimal(n) + tail));
    }
  }

  lemma SkipBlank(blanks: seq<Byte>, rest: seq<Byte>)
    requires blanks != [] && (blanks[0] == 32 || blanks[0] == 9)
    ensures Atoi(blanks + rest) == Atoi(blanks[1..] + rest)
  {
    assert (blanks + rest)[1..] == blanks[1..] + rest && (blanks + rest)[0] == blanks[0];
    SmallRoundTrip(32);
    SmallRoundTrip(9);
  }

  lemma SignedForms(n: nat, tail: seq<Byte>)
    requires tail != [] && tail[0] == 0
    ensures Atoi([] + (Decimal(n) + tail)) == n
    ensures Atoi([] + ([45] + (Decimal(n) + tail))) + n == 0
    ensures Atoi([] + ([43] + (Decimal(n) + tail))) == n
  {
    var digits := Decimal(n) + tail;
    AtoiOfDecimal(n, tail);
    AtoiReadsDecimal(n, tail);
    SmallRoundTrip(45);
    SmallRoundTrip(43);
    assert [] + digits == digits;
    assert [] + ([45] + digits) == [45] + digits && ([45] + digits)[1..] == digits;
    assert [] + ([43] + digits) == [43] + digits && ([43] + digits)[1..] == digits;
  }

  lemma {:induction false} SizeField(name: seq<Byte>, total: nat, tail: seq<Byte>)
    requires (forall i :: 0 <= i < |name| ==> name[i] != 0) && tail != [] && tail[0] == 0
    ensures ReportedSize(name + ([0] + (Decimal(total) + tail))) == if total == 0 then -1 else total
  {
    var rest := [0] + (Decimal(total) + tail);
    StrnLenStops(name, rest, |name + rest| - 1);
    assert (name + rest)[|name| + 1..] == Decimal(total) + tail;
    AtoiOfDecimal(total, tail);
  }

  /** The receiver reads back the size the sender wrote; an empty file reads as unknown. */
  lemma SizeRoundTrip(name: seq<Byte>, total: nat)
    requires forall i :: 0 <= i < |name| ==> name[i] != 0
    ensures ReportedSize(FilePacket(name, total)) == if total == 0 then -1 else total
  {
    var meta := name + [0] + Decimal(total) + [0];
    var filler := FilePacket(name, total)[|meta|..];
    assert FilePacket(name, total) == meta + filler;
    assert meta + filler == name + ([0] + (Decimal(total) + ([0] + filler)));
    SizeField(name, total, [0] + filler);
  }

  // ---- The receiver ------------------------------------------------------------------------

  /** The payload bytes of the packets: all of them, or the first `fileSize` if the size is known. */
  function Stripped(fileSize: int, bytes: seq<Byte>): seq<Byte> {
    if 0 < fileSize < |bytes| then bytes[..fileSize] else bytes
  }

  /** The medium after a session: the payload, erased cells up to the end of its last sector, the old contents. */
  function Flashed(original: seq<Byte>, payload: seq<Byte>): (r: seq<Byte>)
    requires |payload| <= |original| && |original| % 4096 == 0
    ensures |r| == |original|
  {
    var end := (|payload| + 4095) / 4096 * 4096;
    payload + seq(end - |payload|, _ => 0xFF) + original[end..]
  }

  /** Cell by cell: the payload, erased cells up to the next multiple of 4096, and the old contents from there on. */
  lemma FlashedCell(original: seq<Byte>, payload: seq<Byte>, k: nat)
    requires |payload| <= |original| && |original| % 4096 == 0 && k < |original|
    ensures k < |payload| ==> Flashed(original, payload)[k] == payload[k]
    ensures k >= |payload| && k / 4096 * 4096 < |payload| ==> Flashed(original, payload)[k] == 0xFF
    ensures k / 4096 * 4096 >= |payload| ==> Flashed(original, payload)[k] == original[k]
  {
  }

  lemma SectorExtends(cells: seq<Byte>, original: seq<Byte>, payload: seq<Byte>, offset: nat, data: seq<Byte>)
    requires offset + ERASE_BLOCK <= |cells| == |original| && |data| <= ERASE_BLOCK
    requires |payload| == offset + |data| && payload[offset..] == data
    requires cells == payload[..offset] + original[offset..]
    ensures SectorWritten(cells, offset, data)
            == payload + seq(ERASE_BLOCK - |data|, _ => 0xFF) + original[offset + ERASE_BLOCK..]
  {
    assert cells[..offset] == payload[..offset];
    assert cells[offset + ERASE_BLOCK..] == original[offset + ERASE_BLOCK..];
    assert payload == payload[..offset] + data;
  }

  lemma StrippedInPieces(fileSize: int, first: seq<Byte>, second: seq<Byte>)
    ensures Stripped(fileSize, Stripped(fileSize, first) + second) == Stripped(fileSize, first + second)
  {
    if 0 < fileSize < |first| {
      assert (first[..fileSize] + second)[..fileSize] == first[..fileSize] == (first + second)[..fileSize];
    }
  }

  lemma StrippedPacket(fileSize: int, payload: seq<Byte>, packet: seq<Byte>, valid: nat)
    requires fileSize > 0 ==> |payload| <= fileSize
    requires valid == if fileSize > 0 then Min(|packet|, fileSize - |payload|) else |packet|
    ensures Stripped(fileSize, payload + packet) == payload + packet[..valid]
  {
  }

  lemma PayloadGrows(base: seq<Byte>, packet: seq<Byte>, taken: nat, chunk: nat)
    requires taken + chunk <= |packet|
    ensures base + packet[..taken] + packet[taken..taken + chunk] == base + packet[..taken + chunk]
  {
  }

  /** The last sector makes the image whole. */
  lemma LastSector(cells: seq<Byte>, original: seq<Byte>, payload: seq<Byte>, offset: nat)
    requires offset < |payload| < offset + 4096 <= |cells| == |original|
    requires offset % 4096 == 0 && |original| % 4096 == 0
    requires cells == payload[..offset] + original[offset..]
    ensures SectorWritten(cells, offset, payload[offset..]) == Flashed(original, payload)
  {
    SectorExtends(cells, original, payload, offset, payload[offset..]);
    SectorsCover(|payload|, offset);
  }

  class FontReceiver {
    const part: NorPartition
    const blockBuf: array<Byte>
    var fileSize: int
    var received: nat
    var writeOffset: nat
    var bufUsed: nat
    var writeFailed: bool

    /** All payload bytes taken in this session, and the partition as the session found it. */
    ghost var payload: seq<Byte>
    ghost var original: seq<Byte>

    /** As long as no flash operation has failed. */
    ghost predicate Valid()
      reads this, part, blockBuf
    {
      && blockBuf.Length == ERASE_BLOCK && |part.cells| == |original| && |original| % 4096 == 0
      && !writeFailed
      && received == |payload| == writeOffset + bufUsed && bufUsed < ERASE_BLOCK
      && writeOffset % 4096 == 0 && writeOffset <= |original|
      && part.cells == payload[..writeOffset] + original[writeOffset..]
      && blockBuf[..bufUsed] == payload[writeOffset..]
      && (fileSize > 0 ==> received <= fileSize)
    }

    constructor (part: NorPartition)
      ensures this.part == part && blockBuf.Length == ERASE_BLOCK && fresh(blockBuf)
    {
      this.part := part;
      blockBuf := new Byte[ERASE_BLOCK];
      fileSize, received, writeOffset, bufUsed, writeFailed := 0, 0, 0, 0, false;
      payload, original := [], [];
    }

    /** font_rym_on_begin: a file larger than the partition is refused before anything is written. */
    method OnBegin(packet: seq<Byte>) returns (code: RymCode)
      requires blockBuf.Length == ERASE_BLOCK && |part.cells| % 4096 == 0
      modifies this
      ensures code.Can? <==> ReportedSize(packet) > |part.cells|
      ensures code.Ack? ==> Valid() && fileSize == ReportedSize(packet) && payload == [] && original == part.cells
    {
      fileSize := ReportedSize(packet);
      if fileSize > 0 && fileSize > |part.cells| {
        return Can;
      }
      received, writeOffset, bufUsed, writeFailed := 0, 0, 0, false;
      payload, original := [], part.cells;
      return Ack;
    }

    /** font_rym_flush_block: erase one sector, program what has been gathered for it. */
    method FlushBlock() returns (code: RymCode)
      requires blockBuf.Length == ERASE_BLOCK && bufUsed <= ERASE_BLOCK
      modifies this`writeFailed, this`writeOffset, this`bufUsed, part
      ensures |part.cells| == |old(part.cells)|
      ensures old(bufUsed) == 0 ==> code.Ack? && part.cells == old(part.cells) && writeOffset == old(writeOffset) && bufUsed == 0
      ensures old(bufUsed) > 0 && code.Ack? ==>
                old(writeOffset) + ERASE_BLOCK <= |part.cells| && writeOffset == old(writeOffset) + ERASE_BLOCK && bufUsed == 0
                && part.cells == SectorWritten(old(part.cells), old(writeOffset), old(blockBuf[..bufUsed]))
      ensures writeFailed == (old(writeFailed) || code.Can?)
      ensures part.reliable && old(writeOffset) + ERASE_BLOCK <= |part.cells| ==> code.Ack?
    {
      if bufUsed == 0 {
        return Ack;
      }
      ghost var before := part.cells;
      var ok := part.Erase(writeOffset, ERASE_BLOCK);
      if ok {
        ok := part.Program(writeOffset, blockBuf[..bufUsed]);
      }
      if !ok {
        writeFailed := true;
        return Can;
      }
      EraseThenProgram(before, writeOffset, blockBuf[..bufUsed]);
      writeOffset := writeOffset + ERASE_BLOCK;
      bufUsed := 0;
      return Ack;
    }

    /** font_rym_on_data: take the packet's bytes up to the reported file size; flush every full sector. */
    method OnData(packet: seq<Byte>) returns (code: RymCode)
      requires Valid()
      modifies this`received, this`writeOffset, this`bufUsed, this`writeFailed, this`payload, blockBuf, part
      ensures |part.cells| == |old(part.cells)|
      ensures code.Ack? ==> Valid() && payload == Stripped(fileSize, old(payload) + packet)
      ensures part.reliable && |Stripped(fileSize, old(payload) + packet)| <= |original| ==> code.Ack?
    {
      var valid := ValidBytes(packet);
      var taken := 0;
      while taken < valid
        invariant 0 <= taken <= valid <= |packet|
        invariant Valid() && payload == old(payload) + packet[..taken]
      {
        var space := ERASE_BLOCK - bufUsed;
        var chunk := if valid - taken > space then space else valid - taken;
        PayloadGrows(old(payload), packet, taken, chunk);
        code := TakeChunk(packet[taken..taken + chunk]);
        if code.Can? {
          return;
        }
        taken := taken + chunk;
      }
      return Ack;
    }

    /** How much of a packet is file: all of it while the size is unknown, else no more than remains. */
    method ValidBytes(packet: seq<Byte>) returns (valid: nat)
      requires Valid()
      ensures valid <= |packet| && Stripped(fileSize, payload + packet) == payload + packet[..valid]
      ensures fileSize > 0 ==> received + valid <= fileSize
    {
      valid := |packet|;
      if fileSize > 0 {
        var remain := fileSize - received;
        if valid > remain {
          valid := remain;
        }
      }
      StrippedPacket(fileSize, payload, packet, valid);
    }

    /** One round of the copy loop. */
    method TakeChunk(chunk: seq<Byte>) returns (code: RymCode)
      requires Valid() && 0 < |chunk| <= ERASE_BLOCK - bufUsed && (fileSize > 0 ==> received + |chunk| <= fileSize)
      modifies this`received, this`writeOffset, this`bufUsed, this`writeFailed, this`payload, blockBuf, part
      ensures |part.cells| == |old(part.cells)|
      ensures code.Ack? ==> Valid() && payload == old(payload) + chunk
      ensures part.reliable && |old(payload) + chunk| <= |original| ==> code.Ack?
    {
      CopyIn(chunk);
      ghost var offset, data := writeOffset, payload[writeOffset..] + chunk;
      bufUsed := bufUsed + |chunk|;
      received := received + |chunk|;
      payload := payload + chunk;
      assert blockBuf[..bufUsed] == data == payload[offset..];
      if bufUsed == ERASE_BLOCK {
        ghost var before := part.cells;
        code := FlushBlock();
        if code.Ack? {
          SectorExtends(before, original, payload, offset, data);
          assert payload[..writeOffset] == payload;
        }
        return;
      }
      return Ack;
    }

    /** The memcpy into the sector buffer. */
    method CopyIn(chunk: seq<Byte>)
      requires bufUsed + |chunk| <= blockBuf.Length
      modifies blockBuf
      ensures blockBuf[..bufUsed + |chunk|] == old(blockBuf[..bufUsed]) + chunk
    {
      for i := 0 to |chunk|
        invariant blockBuf[..bufUsed] == old(blockBuf[..bufUsed])
        invariant forall k :: 0 <= k < i ==> blockBuf[bufUsed + k] == chunk[k]
      {
        blockBuf[bufUsed + i] := chunk[i];
      }
      assert blockBuf[bufUsed..bufUsed + |chunk|] == chunk;
      assert blockBuf[..bufUsed + |chunk|] == blockBuf[..bufUsed] + blockBuf[bufUsed..bufUsed + |chunk|];
    }

    /** font_rym_on_end: the last, partial sector. Its result is only recorded in the failure flag. */
    method OnEnd() returns (code: RymCode)
      requires Valid()
      modifies this`writeOffset, this`bufUsed, this`writeFailed, part
      ensures |part.cells| == |old(part.cells)|
      ensures code.Ack?
      ensures !writeFailed ==> |payload| <= |original| && part.cells == Flashed(original, payload)
      ensures part.reliable && |payload| <= |original| ==> !writeFailed
    {
      ghost var before, offset := part.cells, writeOffset;
      if bufUsed == 0 {
        assert payload[..offset] == payload;
        assert part.cells == Flashed(original, payload);
      } else {
        assert blockBuf[..bufUsed] == payload[offset..];
      }
      var flushed := FlushBlock();
      if flushed.Ack? && |payload| > offset {
        LastSector(before, original, payload, offset);
      }
      return Ack;
    }

    /** The callbacks of one transfer, in the order the YMODEM receiver makes them; true is what font_update goes on with. */
    method ReceiveSession(begin: seq<Byte>, packets: seq<seq<Byte>>) returns (ok: bool)
      requires blockBuf.Length == ERASE_BLOCK && |part.cells| % 4096 == 0
      modifies this, blockBuf, part
      ensures |part.cells| == |old(part.cells)|
      ensures ok ==>
                var sent := Stripped(ReportedSize(begin), Flatten(packets));
                |sent| <= |old(part.cells)| && part.cells == Flashed(old(part.cells), sent)
      ensures ReportedSize(begin) > |old(part.cells)| ==> !ok && part.cells == old(part.cells)
      ensures var sent := Stripped(ReportedSize(begin), Flatten(packets));
              part.reliable && ReportedSize(begin) <= |old(part.cells)| && |sent| <= |old(part.cells)| ==> ok
    {
      var code := OnBegin(begin);
      if code.Can? {
        return false;
      }
      for i := 0 to |packets|
        invariant Valid() && fileSize == ReportedSize(begin) && original == old(part.cells)
        invariant payload == Stripped(fileSize, Flatten(packets[..i]))
      {
        assert packets[..i + 1][..i] == packets[..i];
        StrippedInPieces(fileSize, Flatten(packets[..i]), packets[i]);
        StrippedGrows(fileSize, packets, i + 1);
        code := OnData(packets[i]);
        if code.Can? {
          return false;
        }
      }
      assert packets[..|packets|] == packets;
      code := OnEnd();
      return !writeFailed;
    }
  }

  lemma SectorsCover(length: nat, offset: nat)
    requires offset < length < offset + 4096 && offset % 4096 == 0
    ensures (length + 4095) / 4096 * 4096 == offset + 4096
  {
  }

  lemma StrippedGrows(fileSize: int, packets: seq<seq<Byte>>, i: nat)
    requires i <= |packets|
    ensures |Stripped(fileSize, Flatten(packets[..i]))| <= |Stripped(fileSize, Flatten(packets))|
  {
    FlattenConcat(packets[..i], packets[i..]);
    assert packets[..i] + packets[i..] == packets;
  }

  // ---- The sender --------------------------------------------------------------------------

  /** send_file cuts the file into 1 KiB packets and fills the last one up with 0x1A. */
  method Packetise(file: seq<Byte>) returns (packets: seq<seq<Byte>>)
    ensures forall i :: 0 <= i < |packets| ==> |packets[i]| == 1024
    ensures file <= Flatten(packets)
    ensures |Flatten(packets)| < |file| + 1024
    ensures forall k :: |file| <= k < |Flatten(packets)| ==> Flatten(packets)[k] == 0x1A
  {
    packets := [];
    var sent := 0;
    while sent < |file|
      invariant 0 <= sent <= |file|
      invariant forall i :: 0 <= i < |packets| ==> |packets[i]| == 1024
      invariant if sent < |file| then Flatten(packets) == file[..sent] else file <= Flatten(packets)
      invariant |Flatten(packets)| < sent + 1024
      invariant forall k :: sent <= k < |Flatten(packets)| ==> Flatten(packets)[k] == 0x1A
    {
      var next := if sent + 1024 < |file| then sent + 1024 else |file|;
      var chunk := Padded(file[sent..next], 1024, 0x1A);
      assert (packets + [chunk])[..|packets|] == packets;
      assert file[..sent] + file[sent..next] == file[..next];
      packets := packets + [chunk];
      sent := next;
    }
  }

  /**
    Flashing a file: on success the partition holds exactly the file, erased cells up to the next sector, and the
    old contents beyond. On reliable flash it succeeds exactly for the files that fit.
   */
  method SendFile(receiver: FontReceiver, name: seq<Byte>, file: seq<Byte>) returns (ok: bool)
    requires forall i :: 0 <= i < |name| ==> name[i] != 0
    requires receiver.blockBuf.Length == ERASE_BLOCK && |receiver.part.cells| % 4096 == 0
    modifies receiver, receiver.blockBuf, receiver.part
    ensures |receiver.part.cells| == |old(receiver.part.cells)|
    ensures ok ==> |file| <= |old(receiver.part.cells)| && receiver.part.cells == Flashed(old(receiver.part.cells), file)
    ensures receiver.part.reliable ==> (ok <==> |file| <= |old(receiver.part.cells)|)
    ensures |file| > |old(receiver.part.cells)| ==> receiver.part.cells == old(receiver.part.cells)
  {
    var packets := Packetise(file);
    SizeRoundTrip(name, |file|);
    if file == [] {
      assert Flatten(packets) == [] by { EmptyPackets(packets); }
    }
    assert Stripped(ReportedSize(FilePacket(name, |file|)), Flatten(packets)) == file;
    ok := receiver.ReceiveSession(FilePacket(name, |file|), packets);
  }

  lemma EmptyPackets(packets: seq<seq<Byte>>)
    requires (forall i :: 0 <= i < |packets| ==> |packets[i]| == 1024) && |Flatten(packets)| < 1024
    ensures Flatten(packets) == []
  {
  }
}
