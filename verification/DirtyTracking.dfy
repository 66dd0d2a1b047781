/** Dirty-page bitmaps and dirty-rate estimation for live migration. */
module DirtyTracking {
  import opened Numbers
  import opened Wrappers

  const PAGE_SIZE: nat := 4096

  function DivCeil(a: nat, b: nat): nat
    requires b > 0
  {
    (a + b - 1) / b
  }

  function Min(a: nat, b: nat): nat {
    if a < b then a else b
  }

  // ── Packed bits ─────────────────────────────────────────────────────

  predicate Bit(b: bv8, k: nat)
    requires k < 8
  {
    (b >> k) & 1 == 1
  }

  function SetBit(b: bv8, k: nat): bv8
    requires k < 8
  {
    b | (1 << k)
  }

  lemma OrBits(a: bv8, b: bv8, k: nat)
    requires k < 8
    ensures Bit(a | b, k) <==> Bit(a, k) || Bit(b, k)
  {
    assert (a | b) >> k == (a >> k) | (b >> k);
  }

  lemma OneBit(k: nat, j: nat)
    requires k < 8 && j < 8
    ensures Bit(1 << k, j) <==> j == k
  {
  }

  lemma SetBitSets(b: bv8, k: nat, j: nat)
    requires k < 8 && j < 8
    ensures Bit(SetBit(b, k), j) <==> j == k || Bit(b, j)
  {
    OrBits(b, 1 << k, j);
    OneBit(k, j);
  }

  predicate BitAt(bytes: seq<bv8>, i: nat)
    requires i < 8 * |bytes|
  {
    Bit(bytes[i / 8], i % 8)
  }

  /** The pages below n that a bitmap marks. */
  ghost function Pages(bytes: seq<bv8>, n: nat): set<nat>
    requires n <= 8 * |bytes|
  {
    set i: nat | i < n && BitAt(bytes, i)
  }

  /** The bits behind the last page. */
  ghost function Padding(bytes: seq<bv8>, n: nat): set<nat>
    requires n <= 8 * |bytes|
  {
    Pages(bytes, 8 * |bytes|) - Pages(bytes, n)
  }

  // ── Counting ────────────────────────────────────────────────────────

  function Ones(b: bv8, k: nat): nat
    requires k <= 8
  {
    if k == 0 then 0 else Ones(b, k - 1) + if Bit(b, k - 1) then 1 else 0
  }

  /** `u8::count_ones` */
  function CountOnes(b: bv8): nat {
    Ones(b, 8)
  }

  /** `dirty_count` */
  function DirtyCount(bytes: seq<bv8>): nat {
    if bytes == [] then 0 else DirtyCount(bytes[..|bytes| - 1]) + CountOnes(bytes[|bytes| - 1])
  }

  lemma PagesNext(bytes: seq<bv8>, n: nat)
    requires n < 8 * |bytes|
    ensures |Pages(bytes, n + 1)| == |Pages(bytes, n)| + if BitAt(bytes, n) then 1 else 0
  {
    assert Pages(bytes, n + 1) == Pages(bytes, n) + if BitAt(bytes, n) then {n} else {};
  }

  lemma BitOfByte(bytes: seq<bv8>, m: nat, k: nat)
    requires m < |bytes| && k < 8
    ensures BitAt(bytes, 8 * m + k) == Bit(bytes[m], k)
  {
    assert (8 * m + k) / 8 == m && (8 * m + k) % 8 == k;
  }

  lemma {:induction false} OnesCounts(bytes: seq<bv8>, m: nat, k: nat)
    requires m < |bytes| && k <= 8
    ensures |Pages(bytes, 8 * m + k)| == |Pages(bytes, 8 * m)| + Ones(bytes[m], k)
  {
    if k > 0 {
      OnesCounts(bytes, m, k - 1);
      PagesNext(bytes, 8 * m + k - 1);
      BitOfByte(bytes, m, k - 1);
    }
  }

  lemma PagesOfPrefix(bytes: seq<bv8>, m: nat)
    requires m <= |bytes|
    ensures Pages(bytes[..m], 8 * m) == Pages(bytes, 8 * m)
  {
    forall i: nat | i < 8 * m ensures BitAt(bytes[..m], i) == BitAt(bytes, i) {
      assert i / 8 < m;
    }
  }

  lemma {:induction false} DirtyCountCounts(bytes: seq<bv8>)
    ensures DirtyCount(bytes) == |Pages(bytes, 8 * |bytes|)|
  {
    if bytes == [] {
      assert Pages(bytes, 0) == {};
    } else {
      var m := |bytes| - 1;
      DirtyCountCounts(bytes[..m]);
      PagesOfPrefix(bytes, m);
      OnesCounts(bytes, m, 8);
    }
  }

  /** `dirty_count` counts the dirty pages and, with them, whatever padding bits are set; there
      are at most seven of those. */
  lemma DirtyCountIsPagesAndPadding(bytes: seq<bv8>, n: nat)
    requires |bytes| == DivCeil(n, 8)
    ensures n <= 8 * |bytes| < n + 8
    ensures DirtyCount(bytes) == |Pages(bytes, n)| + |Padding(bytes, n)|
    ensures |Padding(bytes, n)| <= 7
  {
    DirtyCountCounts(bytes);
    var all, pages := Pages(bytes, 8 * |bytes|), Pages(bytes, n);
    assert pages <= all;
    assert all == pages + Padding(bytes, n);
    SubsetOfRange(Padding(bytes, n), n, 8 * |bytes|);
  }

  lemma {:induction false} SubsetOfRange(s: set<nat>, lo: nat, hi: nat)
    requires lo <= hi && forall i | i in s :: lo <= i < hi
    ensures |s| <= hi - lo
    decreases hi
  {
    if lo < hi {
      SubsetOfRange(s - {hi - 1}, lo, hi - 1);
      assert |s| <= |s - {hi - 1}| + 1;
    } else {
      assert s == {};
    }
  }

  // ── The bitmap ──────────────────────────────────────────────────────

  class DirtyBitmap {
    var bitmap: seq<bv8>
    const pageCount: nat

    ghost predicate Valid()
      reads this
    {
      |bitmap| == DivCeil(pageCount, 8)
    }

    /** The set of pages the bitmap stands for. */
    ghost function Dirty(): set<nat>
      requires Valid()
      reads this
    {
      Pages(bitmap, pageCount)
    }

    ghost predicate PaddingClear()
      requires Valid()
      reads this
    {
      Padding(bitmap, pageCount) == {}
    }

    constructor New(memorySize: nat)
      ensures Valid() && pageCount == DivCeil(memorySize, PAGE_SIZE)
      ensures memorySize <= 4096 * pageCount < memorySize + 4096
      ensures Dirty() == {} && PaddingClear()
    {
      var pages := DivCeil(memorySize, PAGE_SIZE);
      pageCount := pages;
      bitmap := seq(DivCeil(pages, 8), i => 0);
      new;
      ZeroBits(bitmap);
    }

    constructor FromBytes(bytes: seq<bv8>, pages: nat)
      requires |bytes| == DivCeil(pages, 8)
      ensures Valid() && pageCount == pages && bitmap == bytes
    {
      bitmap, pageCount := bytes, pages;
    }

    /** `from_raw` */
    static method FromRaw(bytes: seq<bv8>, memorySize: nat) returns (r: Result<DirtyBitmap, (nat, nat)>)
      ensures var pages := DivCeil(memorySize, PAGE_SIZE);
              if |bytes| == DivCeil(pages, 8)
              then r.Ok? && r.value.Valid() && r.value.pageCount == pages && r.value.bitmap == bytes
              else r == Err((DivCeil(pages, 8), |bytes|))
      ensures r.Ok? ==> fresh(r.value)
    {
      var pages := DivCeil(memorySize, PAGE_SIZE);
      if |bytes| != DivCeil(pages, 8) {
        return Err((DivCeil(pages, 8), |bytes|));
      }
      var b := new DirtyBitmap.FromBytes(bytes, pages);
      r := Ok(b);
    }

    predicate IsDirty(pageIndex: nat)
      requires Valid()
      reads this
      ensures IsDirty(pageIndex) <==> pageIndex in Dirty()
    {
      pageIndex < pageCount && Bit(bitmap[pageIndex / 8], pageIndex % 8)
    }

    method SetDirty(pageIndex: nat)
      requires Valid()
      modifies this
      ensures Valid() && Dirty() == old(Dirty()) + if pageIndex < pageCount then {pageIndex} else {}
      ensures old(PaddingClear()) ==> PaddingClear()
    {
      if pageIndex >= pageCount {
        return;
      }
      SetBitAt(bitmap, pageIndex);
      bitmap := bitmap[pageIndex / 8 := SetBit(bitmap[pageIndex / 8], pageIndex % 8)];
    }

    method Clear()
      requires Valid()
      modifies this
      ensures Valid() && Dirty() == {} && PaddingClear()
    {
      bitmap := seq(|bitmap|, i => 0);
      ZeroBits(bitmap);
    }

    /** `merge`: the shorter bitmap decides how many bytes are combined. */
    method Merge(other: DirtyBitmap)
      requires Valid() && other.Valid()
      modifies this
      ensures Valid() && bitmap == old(OrBytes(bitmap, other.bitmap))
      ensures pageCount == other.pageCount ==>
                && Dirty() == old(Dirty() + other.Dirty())
                && (old(PaddingClear() && other.PaddingClear()) ==> PaddingClear())
    {
      ghost var mine, theirs := bitmap, other.bitmap;
      var merged := bitmap;
      for i := 0 to Min(|bitmap|, |other.bitmap|)
        invariant |merged| == |bitmap| && bitmap == mine && other.bitmap == theirs
        invariant forall j | 0 <= j < i :: merged[j] == mine[j] | theirs[j]
        invariant forall j | i <= j < |mine| :: merged[j] == mine[j]
      {
        merged := merged[i := merged[i] | other.bitmap[i]];
      }
      assert merged == OrBytes(mine, theirs);
      bitmap := merged;
      if pageCount == other.pageCount { OrPages(mine, theirs); }
    }

    /** `dirty_pages`, collected: byte by byte, bit by bit. */
    method DirtyPages() returns (pages: seq<nat>)
      requires Valid()
      ensures Ascending(pages) && forall p :: p in pages <==> p in Dirty()
    {
      pages := [];
      for byteIdx := 0 to |bitmap|
        invariant Ascending(pages) && forall p :: p in pages <==> p < 8 * byteIdx && p in Dirty()
      {
        for bit := 0 to 8
          invariant Ascending(pages) && forall p :: p in pages <==> p < 8 * byteIdx + bit && p in Dirty()
        {
          var page := byteIdx * 8 + bit;
          assert page / 8 == byteIdx && page % 8 == bit;
          if Bit(bitmap[byteIdx], bit) && page < pageCount {
            forall i | 0 <= i < |pages| ensures pages[i] < page { assert pages[i] in pages; }
            pages := pages + [page];
          }
        }
      }
    }
  }

  function OrBytes(a: seq<bv8>, b: seq<bv8>): seq<bv8> {
    seq(|a|, i requires 0 <= i < |a| => if i < |b| then a[i] | b[i] else a[i])
  }

  lemma ZeroBits(bytes: seq<bv8>)
    requires forall i | 0 <= i < |bytes| :: bytes[i] == 0
    ensures forall n: nat | n <= 8 * |bytes| :: Pages(bytes, n) == {}
  {
  }

  lemma SetBitAt(bytes: seq<bv8>, i: nat)
    requires i < 8 * |bytes|
    ensures var bytes' := bytes[i / 8 := SetBit(bytes[i / 8], i % 8)];
            forall n: nat | n <= 8 * |bytes| :: Pages(bytes', n) == Pages(bytes, n) + if i < n then {i} else {}
  {
    var bytes' := bytes[i / 8 := SetBit(bytes[i / 8], i % 8)];
    forall j: nat | j < 8 * |bytes| ensures BitAt(bytes', j) <==> j == i || BitAt(bytes, j) {
      SetBitSets(bytes[i / 8], i % 8, j % 8);
    }
  }

  lemma OrPages(a: seq<bv8>, b: seq<bv8>)
    requires |a| == |b|
    ensures forall n: nat | n <= 8 * |a| :: Pages(OrBytes(a, b), n) == Pages(a, n) + Pages(b, n)
  {
    forall j: nat | j < 8 * |a| ensures BitAt(OrBytes(a, b), j) <==> BitAt(a, j) || BitAt(b, j) {
      OrBits(a[j / 8], b[j / 8], j % 8);
    }
  }

  // ── Rates ───────────────────────────────────────────────────────────

  /** Pages per second between two samples; a clock that stood still or ran back gives 0. */
  function RateSince(last: Option<nat>, timestampMs: nat, dirtyCount: nat): Option<real> {
    if last.None? then None
    else if timestampMs <= last.value then Some(0.0)
    else
      var dt := Min(timestampMs - last.value, U32_MAX);
      Some(Min(dirtyCount, U32_MAX) as real / (dt as real / 1000.0))
  }

  datatype DirtySnapshot = DirtySnapshot(bitmap: DirtyBitmap, rate: Option<real>, dirtyCount: nat)

  class DirtyTracker {
    const memorySize: nat
    var lastSample: Option<nat>
    var lastRate: Option<real>

    constructor (memorySize: nat)
      ensures this.memorySize == memorySize && lastSample == None && lastRate == None
    {
      this.memorySize, lastSample, lastRate := memorySize, None, None;
    }

    /** `collect_from_bitmap` */
    method CollectFromBitmap(bitmap: DirtyBitmap, timestampMs: nat)
      returns (r: Result<DirtySnapshot, (nat, nat)>)
      requires bitmap.Valid()
      modifies this
      ensures var pages := DivCeil(memorySize, PAGE_SIZE);
              if bitmap.pageCount == pages then
                var rate := RateSince(old(lastSample), timestampMs, DirtyCount(bitmap.bitmap));
                && r == Ok(DirtySnapshot(bitmap, rate, DirtyCount(bitmap.bitmap)))
                && lastSample == Some(timestampMs) && lastRate == rate
              else
                && r == Err((DivCeil(pages, 8), |bitmap.bitmap|))
                && lastSample == old(lastSample) && lastRate == old(lastRate)
    {
      var expectedPages := DivCeil(memorySize, PAGE_SIZE);
      if bitmap.pageCount != expectedPages {
        return Err((DivCeil(expectedPages, 8), |bitmap.bitmap|));
      }
      var dirtyCount := DirtyCount(bitmap.bitmap);
      var rate := RateSince(lastSample, timestampMs, dirtyCount);
      lastSample, lastRate := Some(timestampMs), rate;
      r := Ok(DirtySnapshot(bitmap, rate, dirtyCount));
    }
  }
}
