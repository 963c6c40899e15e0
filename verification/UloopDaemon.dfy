/** The userspace side of ULOOP: sizes chosen at start-up and the act of filling a page. */
module UloopDaemon {
  import opened Basics
  import Arith

  function RoundUp(size: nat, page: nat): (r: nat)
    requires 0 < page
  {
    if size % page == 0 then size else size + page - size % page
  }

  lemma RoundUpProps(size: nat, page: nat)
    requires 0 < page
    ensures size <= RoundUp(size, page) < size + page && RoundUp(size, page) % page == 0
  {
    Arith.Split(size, page);
    if size % page != 0 {
      assert RoundUp(size, page) == (size / page + 1) * page + 0;
      Arith.Compose(size / page + 1, 0, page);
    }
  }

  /** The assertion at the head of `store`. */
  predicate InCache(start: nat, size: nat, cacheSize: nat) {
    start + size <= cacheSize
  }

  /** First byte and length that `store` maps, after alignment and clipping. */
  function Range(start: nat, size: nat, page: nat, tgtSize: nat): (int, int)
    requires 0 < page
  {
    var from := start - start % page;
    var len := size + start % page;
    (from, if tgtSize < from + len then tgtSize - from else len)
  }

  lemma RangeProps(start: nat, size: nat, page: nat, tgtSize: nat)
    requires 0 < page && 0 < size + start % page && InCache(start, size, RoundUp(tgtSize, page))
    ensures var (from, len) := Range(start, size, page, tgtSize);
      0 <= from <= start && 0 < len && from + len <= tgtSize && from + len <= start + size
      && (from + len == tgtSize || from + len == start + size)
  {
    RoundUpProps(tgtSize, page);
    var c := RoundUp(tgtSize, page);
    Arith.Split(start, page);
    Arith.Split(c, page);
    Arith.Step(start / page, c / page, page);
    Arith.Below(start, c / page, page);
  }

  function StoredCache(cache: seq<Byte>, target: seq<Byte>, start: nat, size: nat, page: nat): (r: seq<Byte>)
    requires 0 < page && |cache| == RoundUp(|target|, page)
    requires InCache(start, size, |cache|)
    ensures |r| == |cache|
  {
    if size + start % page == 0 then cache
    else
      RangeProps(start, size, page, |target|);
      RoundUpProps(|target|, page);
      var (from, len) := Range(start, size, page, |target|);
      cache[..from] + target[from..from + len] + cache[from + len..]
  }

  /** Byte by byte: the pages from that of the first byte on, up to the end of the
      request or of the target, are the target's, and no other byte is touched. */
  lemma StoredAt(cache: seq<Byte>, target: seq<Byte>, start: nat, size: nat, page: nat, o: nat)
    requires 0 < page && |cache| == RoundUp(|target|, page) && InCache(start, size, |cache|) && o < |cache|
    ensures StoredCache(cache, target, start, size, page)[o] ==
      if start - start % page <= o < start + size && o < |target| then target[o] else cache[o]
  {
    if size + start % page != 0 {
      RangeProps(start, size, page, |target|);
      RoundUpProps(|target|, page);
    }
  }

  /** The assertion fails for a page that begins inside the cache exactly when it
      begins inside the last page but not at its boundary. */
  lemma AssertionFailsIff(start: nat, page: nat, cacheSize: nat)
    requires 0 < page && cacheSize % page == 0 && start < cacheSize
    ensures !InCache(start, page, cacheSize) <==> start % page != 0 && start / page + 1 == cacheSize / page
  {
    Arith.Split(start, page);
    Arith.Split(cacheSize, page);
    Arith.Below(start, cacheSize / page, page);
    Arith.Step(start / page + 1, cacheSize / page, page);
    Arith.Step(cacheSize / page, start / page + 1, page);
  }

  method CopyOver(cache: array<Byte>, target: seq<Byte>, from: nat, len: nat)
    requires from + len <= |target| <= cache.Length
    modifies cache
    ensures cache[..] == old(cache[..])[..from] + target[from..from + len] + old(cache[..])[from + len..]
  {
    for i := 0 to len
      invariant forall o :: 0 <= o < cache.Length ==>
        cache[o] == if from <= o < from + i then target[o] else old(cache[o])
    {
      cache[from + i] := target[from + i];
    }
  }

  datatype StoreRc = Aborted | Failed | Filled | FilledNotUnmapped

  /** `store` of ulobdev.c: the two mappings and the final unmap may fail. */
  method Store(start0: nat, size0: nat, page: nat, target: seq<Byte>, cache: array<Byte>,
               srcMapped: bool, dstMapped: bool, unmapped: bool) returns (rc: StoreRc)
    requires 0 < page && cache.Length == RoundUp(|target|, page)
    modifies cache
    ensures rc.Aborted? <==> !InCache(start0, size0, cache.Length)
    ensures rc.Filled? || rc.FilledNotUnmapped? ==>
              InCache(start0, size0, cache.Length)
              && cache[..] == StoredCache(old(cache[..]), target, start0, size0, page)
    ensures rc.Aborted? || rc.Failed? ==> cache[..] == old(cache[..])
    ensures rc.Failed? <==> !rc.Aborted? && !(srcMapped && dstMapped && 0 < size0 + start0 % page)
    ensures rc.Filled? || rc.FilledNotUnmapped? ==> (rc.Filled? <==> unmapped)
  {
    if !InCache(start0, size0, cache.Length) {
      return Aborted;
    }
    var start, size: int := start0, size0;
    var m := start % page;
    start := start - m;
    size := size + m;
    if |target| < start + size {
      size := |target| - start;
    }
    if size0 + m == 0 || !srcMapped || !dstMapped {
      return Failed;  // a mapping of no bytes is refused
    }
    RangeProps(start0, size0, page, |target|);
    RoundUpProps(|target|, page);
    CopyOver(cache, target, start, size);
    return if unmapped then Filled else FilledNotUnmapped;
  }

  // ---- the sizes chosen by ulo_init

  /** Bytes in the bitmap file for a cache of `cacheSize` bytes. */
  function BitmapSize(cacheSize: nat, page: nat): nat
    requires 0 < page
  {
    var sz := cacheSize / page / 8;
    if sz < page then page else RoundUp(sz, page)
  }

  /** The size arithmetic of ulo_init; its two exits for sizes that are not
      whole pages are never taken. */
  method InitSizes(size: nat, page: nat) returns (ok: bool, cacheSize: nat, bitmapSize: nat)
    requires 0 < page
    ensures ok && cacheSize == RoundUp(size, page) && bitmapSize == BitmapSize(cacheSize, page)
  {
    ok, cacheSize, bitmapSize := false, size, 0;
    var mod := cacheSize % page;
    if mod != 0 {
      cacheSize := cacheSize + (page - mod);
    }
    RoundUpProps(size, page);
    if cacheSize % page != 0 {
      return;
    }
    var sz := cacheSize;
    sz := sz / page;
    sz := sz / 8;
    RoundUpProps(sz, page);
    if sz < page {
      sz := page;
    } else {
      mod := sz % page;
      if mod != 0 {
        sz := sz + (page - mod);
      }
    }
    Arith.Compose(1, 0, page);
    if sz % page != 0 {
      return;
    }
    ok, bitmapSize := true, sz;
  }

  /** When the bitmap file has a bit for each of the n pages of the cache. */
  predicate SizingOk(n: nat, page: nat)
    requires 0 < page
  {
    n % 8 == 0 || n / 8 < page || n / 8 % page != 0
  }

  /** It is the least number of whole pages for a bit of every eight, at least one. */
  lemma BitmapSizeLeast(cacheSize: nat, page: nat)
    requires 0 < page
    ensures var need := if 8 <= cacheSize / page then cacheSize / page / 8 else 1;
      need <= BitmapSize(cacheSize, page) < need + page
  {
    RoundUpProps(cacheSize / page / 8, page);
  }

  lemma SizingExact(cacheSize: nat, page: nat)
    requires 0 < page
    ensures BitmapSize(cacheSize, page) % page == 0 && 0 < BitmapSize(cacheSize, page) / page
    ensures cacheSize / page <= BitmapSize(cacheSize, page) * 8 <==> SizingOk(cacheSize / page, page)
    ensures !SizingOk(cacheSize / page, page) ==> BitmapSize(cacheSize, page) == cacheSize / page / 8
  {
    var n := cacheSize / page;
    RoundUpProps(n / 8, page);
    Arith.Compose(1, 0, page);
    var sz := BitmapSize(cacheSize, page);
    Arith.Split(sz, page);
    Arith.Split(n / 8, page);
    Arith.Step(sz / page, 0, page);
    Arith.Split(n, 8);
  }

  /** Then the split of a page number into a bitmap page and a bit stays inside
      the file; otherwise the last page of the cache lands one page behind it. */
  lemma SplitInFile(cacheSize: nat, page: nat, k: nat)
    requires 0 < page && k < cacheSize / page
    ensures SizingOk(cacheSize / page, page) ==> k / (page * 8) < BitmapSize(cacheSize, page) / page
    ensures !SizingOk(cacheSize / page, page) && k + 1 == cacheSize / page ==>
              k / (page * 8) == BitmapSize(cacheSize, page) / page
  {
    var n, sz := cacheSize / page, BitmapSize(cacheSize, page);
    var f := sz / page;
    SizingExact(cacheSize, page);
    Arith.Split(sz, page);
    assert f * (page * 8) == sz * 8;
    Arith.Below(k, f, page * 8);
    if !SizingOk(n, page) && k + 1 == n {
      assert (f + 1) * (page * 8) == sz * 8 + page * 8;
      Arith.Split(n, 8);
      Arith.Below(k, f + 1, page * 8);
    }
  }

  /** No two pages share a bit. */
  lemma SplitInjective(page: nat, j: nat, k: nat)
    requires 0 < page
    requires j / (page * 8) == k / (page * 8) && j % (page * 8) == k % (page * 8)
    ensures j == k
  {
  }
}
