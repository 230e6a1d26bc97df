/**
  The recording file of applications/uart_send_pcm.c: a cache in front of a capped file whose writes may be short
  or fail. Bytes that cannot be stored are counted, never silently lost.
 */
module RecordingFile {
  import opened FixedPoint

  const CACHE_BYTES := 4096
  const MAX_BYTES := 2646000

  class FileRecorder {
    /** Whether the file system takes something of every write; otherwise a write may fail. */
    const reliable: bool
    var isOpen: bool
    const cache: array<bv8>
    var cacheLen: nat
    var fileBytes: nat
    var drops: nat
    var flushes: nat

    /** Everything offered since the file was opened, what the file holds, and whether a write has ever failed. */
    ghost var offered: seq<bv8>
    ghost var file: seq<bv8>
    ghost var writeFailed: bool

    /** The file's share of the offered bytes, the cache's share, and the counters, which always add up. */
    ghost predicate Valid()
      reads this, cache
    {
      && cache.Length == CACHE_BYTES && cacheLen <= CACHE_BYTES && (!isOpen ==> cacheLen == 0)
      && Accounts(|offered|) && cache[..cacheLen] == offered[|offered| - cacheLen..]
    }

    ghost predicate Accounts(total: nat)
      reads this
    {
      && fileBytes == |file| <= MAX_BYTES && fileBytes + drops + cacheLen == total == |offered|
      && (!writeFailed ==> file == offered[..Min(MAX_BYTES, total - cacheLen)])
    }

    constructor (reliable: bool)
      ensures !isOpen && cache.Length == CACHE_BYTES && this.reliable == reliable
    {
      this.reliable := reliable;
      isOpen, cacheLen, fileBytes, drops, flushes := false, 0, 0, 0, 0;
      offered, file, writeFailed := [], [], false;
      cache := new bv8[CACHE_BYTES];
    }

    /** The part of uart_send_pcm_open_file that succeeds. */
    method Open()
      requires cache.Length == CACHE_BYTES
      modifies this
      ensures Valid() && isOpen && offered == [] && drops == 0 && !writeFailed
    {
      isOpen, cacheLen, fileBytes, drops, flushes := true, 0, 0, 0, 0;
      offered, file, writeFailed := [], [], false;
    }

    /** write_file_direct: up to the cap, in as many writes as the file system needs, until one fails. */
    method WriteDirect(data: seq<bv8>)
      requires fileBytes == |file| <= MAX_BYTES
      modifies this`fileBytes, this`drops, this`file, this`writeFailed
      ensures fileBytes == |file| <= MAX_BYTES && old(file) <= file
      ensures fileBytes + drops == old(fileBytes + drops) + if isOpen then |data| else 0
      ensures old(writeFailed) ==> writeFailed
      ensures reliable ==> writeFailed == old(writeFailed)
      ensures isOpen && !writeFailed ==> file == old(file) + data[..Min(|data|, MAX_BYTES - |old(file)|)]
      ensures !isOpen ==> unchanged(this)
    {
      if !isOpen || data == [] {
        return;
      }
      if fileBytes >= MAX_BYTES {
        drops := drops + |data|;
        return;
      }
      var remain := if fileBytes + |data| > MAX_BYTES then MAX_BYTES - fileBytes else |data|;
      WriteAll(data[..remain]);
      if |data| > remain {
        drops := drops + (|data| - remain);
      }
    }

    /** Its loop: as many writes as the file system needs, until one fails. */
    method WriteAll(data: seq<bv8>)
      requires fileBytes == |file| && |file| + |data| <= MAX_BYTES
      modifies this`fileBytes, this`drops, this`file, this`writeFailed
      ensures fileBytes == |file| <= MAX_BYTES && old(file) <= file
      ensures fileBytes + drops == old(fileBytes + drops) + |data|
      ensures old(writeFailed) ==> writeFailed
      ensures reliable ==> writeFailed == old(writeFailed)
      ensures !writeFailed ==> file == old(file) + data
    {
      var offset := 0;
      while offset < |data|
        invariant 0 <= offset <= |data| && fileBytes == |file| == |old(file)| + offset
        invariant file == old(file) + data[..offset] && drops == old(drops) && writeFailed == old(writeFailed)
      {
        var written: int :| (if reliable then 1 else -1) <= written <= |data| - offset;
        if written <= 0 {
          drops := drops + (|data| - offset);
          writeFailed := true;
          return;
        }
        assert data[..offset + written] == data[..offset] + data[offset..offset + written];
        file := file + data[offset..offset + written];
        offset := offset + written;
        fileBytes := fileBytes + written;
      }
    }

    /** flush_file_cache. */
    method FlushCache()
      requires Valid()
      modifies this`fileBytes, this`drops, this`file, this`writeFailed, this`cacheLen, this`flushes
      ensures Valid() && cacheLen == 0 && flushes == old(flushes) + if old(cacheLen) == 0 then 0 else 1
      ensures old(writeFailed) ==> writeFailed
      ensures reliable ==> writeFailed == old(writeFailed)
    {
      if cacheLen == 0 {
        return;
      }
      WriteDirect(cache[..cacheLen]);
      Appended(old(file), file, offered, cacheLen, writeFailed);
      cacheLen := 0;
      flushes := flushes + 1;
    }

    /** write_file: fill the cache, flush it whenever it is full. */
    method WriteFile(data: seq<bv8>)
      requires Valid()
      modifies this`fileBytes, this`drops, this`file, this`writeFailed, this`cacheLen, this`flushes, this`offered, cache
      ensures Valid() && offered == old(offered) + if isOpen then data else []
      ensures old(writeFailed) ==> writeFailed
      ensures reliable ==> writeFailed == old(writeFailed)
    {
      if !isOpen || data == [] {
        return;
      }
      var offset := 0;
      while offset < |data|
        invariant 0 <= offset <= |data| && Valid() && offered == old(offered) + data[..offset]
        invariant old(writeFailed) ==> writeFailed
        invariant reliable ==> writeFailed == old(writeFailed)
      {
        var copied := CacheSome(data[offset..]);
        assert data[..offset] + data[offset..][..copied] == data[..offset + copied];
        offset := offset + copied;
      }
    }

    /** One round of its loop: as much as the cache takes. */
    method CacheSome(rest: seq<bv8>) returns (copied: nat)
      requires isOpen && Valid() && rest != []
      modifies this`fileBytes, this`drops, this`file, this`writeFailed, this`cacheLen, this`flushes, this`offered, cache
      ensures Valid() && 0 < copied <= |rest| && offered == old(offered) + rest[..copied]
      ensures old(writeFailed) ==> writeFailed
      ensures reliable ==> writeFailed == old(writeFailed)
    {
      var free := CACHE_BYTES - cacheLen;
      if free == 0 {
        FlushCache();
        free := CACHE_BYTES;
      }
      copied := if |rest| > free then free else |rest|;
      CopyIn(rest[..copied]);
      if cacheLen >= CACHE_BYTES {
        FlushCache();
      }
    }

    /** The end of a recording: unless a write failed, the file is everything offered, up to the cap. */
    method Close()
      requires Valid()
      modifies this`isOpen, this`fileBytes, this`drops, this`file, this`writeFailed, this`cacheLen, this`flushes
      ensures Valid() && !isOpen && fileBytes + drops == |offered|
      ensures reliable ==> writeFailed == old(writeFailed)
      ensures !writeFailed ==> file == offered[..Min(MAX_BYTES, |offered|)]
    {
      FlushCache();
      isOpen := false;
    }

    /** The memcpy into the cache. */
    method CopyIn(chunk: seq<bv8>)
      requires isOpen && Valid() && cacheLen + |chunk| <= CACHE_BYTES
      modifies this`cacheLen, this`offered, cache
      ensures Valid() && cacheLen == old(cacheLen) + |chunk| && offered == old(offered) + chunk
    {
      ghost var held, start := cache[..cacheLen], |offered| - cacheLen;
      FillCache(chunk);
      cacheLen := cacheLen + |chunk|;
      assert (offered + chunk)[start..] == held + chunk;
      assert !writeFailed ==> (offered + chunk)[..Min(MAX_BYTES, start)] == offered[..Min(MAX_BYTES, start)];
      offered := offered + chunk;
    }

    method FillCache(chunk: seq<bv8>)
      requires cacheLen + |chunk| <= cache.Length
      modifies cache
      ensures cache[..cacheLen + |chunk|] == old(cache[..cacheLen]) + chunk
    {
      for i := 0 to |chunk|
        invariant cache[..cacheLen] == old(cache[..cacheLen])
        invariant forall k :: 0 <= k < i ==> cache[cacheLen + k] == chunk[k]
      {
        cache[cacheLen + i] := chunk[i];
      }
      assert cache[cacheLen..cacheLen + |chunk|] == chunk;
      assert cache[..cacheLen + |chunk|] == cache[..cacheLen] + cache[cacheLen..cacheLen + |chunk|];
    }
  }

  /** The cache goes to the end of the file, as far as the cap allows. */
  lemma Appended(before: seq<bv8>, after: seq<bv8>, offered: seq<bv8>, held: nat, failed: bool)
    requires held <= |offered|
    requires !failed ==> before == offered[..Min(MAX_BYTES, |offered| - held)]
    requires !failed ==> |before| <= MAX_BYTES && after == before + offered[|offered| - held..][..Min(held, MAX_BYTES - |before|)]
    ensures !failed ==> after == offered[..Min(MAX_BYTES, |offered|)]
  {
  }
}
