/** Dirty-page counting per 4 MB chunk (pkg/profiler/scan.go). */
module Scan {
  import opened Addresses

  const CHUNK: nat := 4 * 1024 * 1024
  const CHUNK_PAGES: nat := 1024
  const UINT16_MAX: nat := 65535

  datatype ScanResult = ScanResult(vmaStart: nat, vmaEnd: nat, dirtyPages: nat, totalPages: nat, chunkDirty: seq<nat>)

  /** vmaChunkCount: chunks needed to cover the VMA, the last one maybe partial. */
  function ChunkCount(start: nat, end: nat): nat
    requires start <= end
  {
    (end - start + CHUNK - 1) / CHUNK
  }

  function ChunkStart(start: nat, c: nat): nat {
    start + c * CHUNK
  }

  function ChunkEnd(start: nat, end: nat, c: nat): nat {
    if ChunkStart(start, c) + CHUNK > end then end else ChunkStart(start, c) + CHUNK
  }

  function ChunkOf(start: nat, a: nat): nat
    requires start <= a
  {
    (a - start) / CHUNK
  }

  /** The chunks partition the VMA: each is non-empty, and every address is in exactly its own. */
  lemma ChunksPartition(start: nat, end: nat, c: nat, a: nat)
    requires start <= a < end
    ensures ChunkOf(start, a) < ChunkCount(start, end)
    ensures c < ChunkCount(start, end) ==>
              ChunkStart(start, c) < ChunkEnd(start, end, c) <= end &&
              (ChunkStart(start, c) <= a < ChunkEnd(start, end, c) <==> c == ChunkOf(start, a))
  {
    var n, q := ChunkCount(start, end), ChunkOf(start, a);
    assert q * CHUNK <= a - start < q * CHUNK + CHUNK;
    assert n * CHUNK >= end - start > (n - 1) * CHUNK;
    if c < q {
      assert c + 1 <= q;
    } else if c > q {
      assert c >= q + 1;
    }
  }

  /** What PAGEMAP_SCAN returns for a VMA: page-aligned regions inside it that do not overlap. */
  ghost predicate KernelRegions(start: nat, end: nat, regions: seq<AddrRange>) {
    Aligned(start) && Aligned(end) && start <= end &&
    (forall i :: 0 <= i < |regions| ==>
                   start <= regions[i].start <= regions[i].end <= end && Aligned(regions[i].start) &&
                   Aligned(regions[i].end)) &&
    (forall i, j :: 0 <= i < j < |regions| ==>
                      regions[i].end <= regions[j].start || regions[j].end <= regions[i].start)
  }

  ghost predicate Within(r: AddrRange, a: nat) {
    r.start <= a < r.end && Aligned(a)
  }

  ghost predicate Reported(regions: seq<AddrRange>, a: nat) {
    exists i :: 0 <= i < |regions| && Within(regions[i], a)
  }

  /** The page addresses the regions report as dirty. */
  ghost function Dirty(start: nat, end: nat, regions: seq<AddrRange>): set<nat> {
    set a | start <= a < end && Reported(regions, a)
  }

  ghost function InChunk(pages: set<nat>, start: nat, c: nat): set<nat> {
    set a | a in pages && start <= a && ChunkOf(start, a) == c
  }

  function Sum(s: seq<nat>): nat {
    if s == [] then 0 else Sum(s[..|s| - 1]) + s[|s| - 1]
  }

  lemma {:induction false} SumBump(s: seq<nat>, i: nat)
    requires i < |s|
    ensures Sum(s[i := s[i] + 1]) == Sum(s) + 1
  {
    var t, last := s[i := s[i] + 1], |s| - 1;
    if i == last {
      assert t[..last] == s[..last];
    } else {
      assert t[..last] == s[..last][i := s[i] + 1];
      SumBump(s[..last], i);
    }
  }

  lemma {:induction false} SumZero(s: seq<nat>)
    requires forall i :: 0 <= i < |s| ==> s[i] == 0
    ensures Sum(s) == 0
  {
    if s != [] {
      SumZero(s[..|s| - 1]);
    }
  }

  /** At most one page address per 4096 bytes. */
  lemma {:induction false} PagesFit(pages: set<nat>, lo: nat, n: nat)
    requires Aligned(lo) && forall a :: a in pages ==> Aligned(a) && lo <= a < lo + n * PAGE
    ensures |pages| <= n
  {
    if n == 0 {
      assert pages == {};
    } else {
      var last := lo + (n - 1) * PAGE;
      forall a | a in pages && a != last
        ensures a < last
      {
        assert Aligned(last);
      }
      PagesFit(pages - {last}, lo, n - 1);
    }
  }

  /** The counters hold, per chunk, the number of dirty pages seen so far. */
  ghost predicate Counted(counts: seq<nat>, seen: set<nat>, start: nat, end: nat) {
    Aligned(start) && Aligned(end) && start <= end && |counts| == ChunkCount(start, end) &&
    (forall a :: a in seen ==> start <= a < end && Aligned(a)) &&
    (forall c :: 0 <= c < |counts| ==> counts[c] == |InChunk(seen, start, c)|) &&
    Sum(counts) == |seen|
  }

  /** A chunk never counts more pages than it has, so the 16-bit counter never saturates. */
  lemma CountFits(counts: seq<nat>, seen: set<nat>, start: nat, end: nat, c: nat)
    requires Counted(counts, seen, start, end) && c < |counts|
    ensures ChunkEnd(start, end, c) >= ChunkStart(start, c)
    ensures counts[c] <= (ChunkEnd(start, end, c) - ChunkStart(start, c)) / PAGE <= CHUNK_PAGES < UINT16_MAX
  {
    ChunkPages(start, end, c);
    var lo, hi := ChunkStart(start, c), ChunkEnd(start, end, c);
    forall a | a in InChunk(seen, start, c)
      ensures lo <= a < hi
    {
      ChunksPartition(start, end, c, a);
    }
    PagesFit(InChunk(seen, start, c), lo, (hi - lo) / PAGE);
  }

  lemma ChunkPages(start: nat, end: nat, c: nat)
    requires Aligned(start) && Aligned(end) && start <= end && c < ChunkCount(start, end)
    ensures var lo, hi := ChunkStart(start, c), ChunkEnd(start, end, c);
            lo <= hi && Aligned(lo) && lo + (hi - lo) / PAGE * PAGE == hi && (hi - lo) / PAGE <= CHUNK_PAGES
  {
    ChunksPartition(start, end, c, start);
    Multiple(start, c * CHUNK_PAGES);
    assert ChunkStart(start, c) == start + c * CHUNK_PAGES * PAGE;
    Multiple(ChunkStart(start, c), CHUNK_PAGES);
  }

  lemma Multiple(a: nat, k: nat)
    requires Aligned(a)
    ensures Aligned(a + k * PAGE)
  {
  }

  lemma CountBump(counts: seq<nat>, seen: set<nat>, start: nat, end: nat, a: nat)
    requires Counted(counts, seen, start, end) && a !in seen && start <= a < end && Aligned(a)
    ensures ChunkOf(start, a) < |counts|
    ensures var c := ChunkOf(start, a); Counted(counts[c := counts[c] + 1], seen + {a}, start, end)
  {
    ChunksPartition(start, end, 0, a);
    var c := ChunkOf(start, a);
    SumBump(counts, c);
    forall k: nat
      ensures |InChunk(seen + {a}, start, k)| == |InChunk(seen, start, k)| + if k == c then 1 else 0
    {
      ChunkGrows(seen, start, a, k);
    }
    hide Sum, ChunkCount, InChunk, ChunkOf;
  }

  lemma ChunkGrows(seen: set<nat>, start: nat, a: nat, k: nat)
    requires a !in seen && start <= a
    ensures |InChunk(seen + {a}, start, k)| == |InChunk(seen, start, k)| + if k == ChunkOf(start, a) then 1 else 0
  {
    hide ChunkOf;
    if k == ChunkOf(start, a) {
      assert InChunk(seen + {a}, start, k) == InChunk(seen, start, k) + {a};
    } else {
      assert InChunk(seen + {a}, start, k) == InChunk(seen, start, k);
    }
  }

  /** The inner loop of scanDirtyPages: one region, page by page. */
  method CountRegion(counts: array<nat>, start: nat, end: nat, r: AddrRange, ghost seen: set<nat>)
    requires Counted(counts[..], seen, start, end)
    requires start <= r.start <= r.end <= end && Aligned(r.start) && Aligned(r.end)
    requires forall a :: Within(r, a) ==> a !in seen
    modifies counts
    ensures Counted(counts[..], seen + (set a | r.start <= a < r.end && Aligned(a)), start, end)
  {
    hide Counted;
    var addr := r.start;
    ghost var done: set<nat> := {};
    assert seen + done == seen;
    while addr < r.end
      invariant r.start <= addr <= r.end && Aligned(addr)
      invariant done == set a | r.start <= a < addr && Aligned(a)
      invariant Counted(counts[..], seen + done, start, end)
      decreases r.end - addr
    {
      assert Within(r, addr);
      CountBump(counts[..], seen + done, start, end, addr);
      var ci := (addr - start) / CHUNK;
      CountFits(counts[..], seen + done, start, end, ci);
      if 0 <= ci < counts.Length && counts[ci] < UINT16_MAX {
        counts[ci] := counts[ci] + 1;
      }
      NextPage(addr);
      assert seen + done + {addr} == seen + (done + {addr});
      done := done + {addr};
      addr := addr + PAGE;
    }
  }

  lemma NextPage(addr: nat)
    requires Aligned(addr)
    ensures Aligned(addr + PAGE)
    ensures forall a :: addr <= a < addr + PAGE && Aligned(a) ==> a == addr
  {
  }

  lemma AlignedGap(a: nat, b: nat)
    requires Aligned(a) && Aligned(b) && a < b
    ensures a + PAGE <= b && (b - a) / PAGE == (b - (a + PAGE)) / PAGE + 1
  {
  }

  lemma FirstPage(lo: nat, hi: nat)
    requires Aligned(lo) && lo + PAGE <= hi
    ensures (set a | lo <= a < hi && Aligned(a)) == (set a | lo + PAGE <= a < hi && Aligned(a)) + {lo}
  {
    NextPage(lo);
    hide Aligned;
  }

  lemma PagesOf(r: AddrRange)
    requires r.start <= r.end && Aligned(r.start) && Aligned(r.end)
    ensures |set a | r.start <= a < r.end && Aligned(a)| == (r.end - r.start) / PAGE
    decreases r.end - r.start
  {
    var pages := set a | r.start <= a < r.end && Aligned(a);
    if r.start == r.end {
      assert pages == {};
    } else {
      AlignedGap(r.start, r.end);
      NextPage(r.start);
      FirstPage(r.start, r.end);
      PagesOf(AddrRange(r.start + PAGE, r.end));
      hide Aligned;
    }
  }

  lemma NothingCounted(counts: seq<nat>, start: nat, end: nat)
    requires Aligned(start) && Aligned(end) && start <= end && |counts| == ChunkCount(start, end)
    requires forall c :: 0 <= c < |counts| ==> counts[c] == 0
    ensures Counted(counts, {}, start, end)
  {
    SumZero(counts);
    forall c: nat
      ensures InChunk({}, start, c) == {}
    {
    }
  }

  lemma CountsMean(counts: seq<nat>, seen: set<nat>, start: nat, end: nat)
    requires Counted(counts, seen, start, end)
    ensures |counts| == ChunkCount(start, end) && Sum(counts) == |seen| <= (end - start) / PAGE
    ensures forall c :: 0 <= c < |counts| ==>
                          counts[c] == |InChunk(seen, start, c)| &&
                          counts[c] <= (ChunkEnd(start, end, c) - ChunkStart(start, c)) / PAGE
  {
    forall c | 0 <= c < |counts|
      ensures counts[c] <= (ChunkEnd(start, end, c) - ChunkStart(start, c)) / PAGE
    {
      CountFits(counts, seen, start, end, c);
    }
    assert start + (end - start) / PAGE * PAGE == end;
    PagesFit(seen, start, (end - start) / PAGE);
  }

  /** The result counts the VMA chunk by chunk: the chunks add up to the total and none exceeds its size. */
  ghost predicate CountOf(r: ScanResult, start: nat, end: nat) {
    r.vmaStart == start <= end == r.vmaEnd && |r.chunkDirty| == ChunkCount(start, end) &&
    r.dirtyPages == Sum(r.chunkDirty) <= r.totalPages == (end - start) / PAGE &&
    forall c :: 0 <= c < |r.chunkDirty| ==>
                  r.chunkDirty[c] <= (ChunkEnd(start, end, c) - ChunkStart(start, c)) / PAGE
  }

  /** scanDirtyPages for one VMA: each dirty page is counted in exactly its own chunk, the chunk
      counts add up to the VMA's total, and no count exceeds its chunk. */
  method ScanVma(start: nat, end: nat, regions: seq<AddrRange>) returns (res: ScanResult)
    requires KernelRegions(start, end, regions)
    ensures CountOf(res, start, end) && res.dirtyPages == |Dirty(start, end, regions)|
    ensures forall c :: 0 <= c < |res.chunkDirty| ==>
                          res.chunkDirty[c] == |InChunk(Dirty(start, end, regions), start, c)|
  {
    hide Counted;
    var n := ChunkCount(start, end);
    var counts := new nat[n](_ => 0);
    var dirty := 0;
    ghost var seen: set<nat> := {};
    NothingCounted(counts[..], start, end);
    for j := 0 to |regions|
      invariant seen == Dirty(start, end, regions[..j]) && dirty == |seen|
      invariant Counted(counts[..], seen, start, end)
    {
      var pages := (regions[j].end - regions[j].start) / PAGE;
      dirty := dirty + pages;
      ghost var more := set a | regions[j].start <= a < regions[j].end && Aligned(a);
      DirtyGrows(start, end, regions, j);
      PagesOf(regions[j]);
      CountRegion(counts, start, end, regions[j], seen);
      seen := seen + more;
    }
    assert regions[..|regions|] == regions;
    CountsMean(counts[..], seen, start, end);
    res := ScanResult(start, end, dirty, (end - start) / PAGE, counts[..]);
  }

  lemma DirtyGrows(start: nat, end: nat, regions: seq<AddrRange>, j: nat)
    requires KernelRegions(start, end, regions) && j < |regions|
    ensures var more := set a | regions[j].start <= a < regions[j].end && Aligned(a);
            var seen := Dirty(start, end, regions[..j]);
            Dirty(start, end, regions[..j + 1]) == seen + more && seen !! more
  {
    var more := set a | regions[j].start <= a < regions[j].end && Aligned(a);
    var seen := Dirty(start, end, regions[..j]);
    var r := regions[..j + 1];
    forall a | a in more
      ensures a in Dirty(start, end, r)
    {
      assert Within(r[j], a);
    }
    forall a | a in seen
      ensures a in Dirty(start, end, r) && a !in more
    {
      var i :| 0 <= i < j && Within(regions[i], a);
      assert Within(r[i], a);
    }
  }

  // ---------------------------------------------------------------- all VMAs

  /** What the ioctl answers for a VMA. */
  datatype Answer = Regions(regions: seq<AddrRange>) | NotPermitted | OtherError

  ghost predicate Apart(vmas: seq<Vma>) {
    forall i, j :: 0 <= i < j < |vmas| ==> vmas[i].end <= vmas[j].start || vmas[j].end <= vmas[i].start
  }

  ghost predicate KernelAnswers(vmas: seq<Vma>, answers: seq<Answer>) {
    |vmas| == |answers| && Apart(vmas) &&
    forall i :: 0 <= i < |vmas| ==>
                  vmas[i].start <= vmas[i].end &&
                  (answers[i].Regions? ==> KernelRegions(vmas[i].start, vmas[i].end, answers[i].regions))
  }

  ghost predicate Scanned(v: Vma, a: Answer) {
    v.writable && a.Regions?
  }

  /** Write protection is not refused on any writable VMA. */
  ghost predicate ScanPermitted(vmas: seq<Vma>, answers: seq<Answer>)
    requires |vmas| == |answers|
  {
    forall i :: 0 <= i < |vmas| && vmas[i].writable ==> !answers[i].NotPermitted?
  }

  /** The dirty pages of every VMA that could be scanned. */
  ghost function AllDirty(vmas: seq<Vma>, answers: seq<Answer>): set<nat>
    requires |vmas| == |answers|
  {
    if vmas == [] then {}
    else
      var last := |vmas| - 1;
      AllDirty(vmas[..last], answers[..last]) +
      if Scanned(vmas[last], answers[last]) then Dirty(vmas[last].start, vmas[last].end, answers[last].regions) else {}
  }

  lemma {:induction false} AllDirtyIn(vmas: seq<Vma>, answers: seq<Answer>, a: nat) returns (i: nat)
    requires |vmas| == |answers| && a in AllDirty(vmas, answers)
    ensures i < |vmas| && vmas[i].start <= a < vmas[i].end
  {
    var last := |vmas| - 1;
    if a in AllDirty(vmas[..last], answers[..last]) {
      i := AllDirtyIn(vmas[..last], answers[..last], a);
    } else {
      i := last;
    }
  }

  /** The result is the exact count of the VMA, page by page and chunk by chunk. */
  ghost predicate CountsVma(r: ScanResult, v: Vma, a: Answer) {
    Scanned(v, a) && CountOf(r, v.start, v.end) && r.dirtyPages == |Dirty(v.start, v.end, a.regions)| &&
    forall c :: 0 <= c < |r.chunkDirty| ==>
                  r.chunkDirty[c] == |InChunk(Dirty(v.start, v.end, a.regions), v.start, c)|
  }

  /** The results count the VMAs number `from[0]`, `from[1]` and so on, which are all the scanned ones before number
      `n`, in order. */
  ghost predicate Covers(results: seq<ScanResult>, from: seq<nat>, vmas: seq<Vma>, answers: seq<Answer>, n: nat)
    requires n <= |vmas| == |answers|
  {
    |from| == |results| &&
    (forall k :: 0 <= k < |from| ==> from[k] < n && CountsVma(results[k], vmas[from[k]], answers[from[k]])) &&
    (forall j, k :: 0 <= j < k < |from| ==> from[j] < from[k]) &&
    (forall i :: 0 <= i < n && Scanned(vmas[i], answers[i]) ==> i in from)
  }

  /** scanDirtyPages: the total counts every dirty page of the scanned VMAs exactly once; the scan
      fails exactly when write-protection is not permitted on a writable VMA. */
  method ScanDirtyPages(vmas: seq<Vma>, answers: seq<Answer>)
    returns (ok: bool, results: seq<ScanResult>, total: nat, ghost from: seq<nat>)
    requires KernelAnswers(vmas, answers)
    ensures ok <==> ScanPermitted(vmas, answers)
    ensures ok ==> total == |AllDirty(vmas, answers)| && Covers(results, from, vmas, answers, |vmas|)
  {
    hide CountOf, AllDirty, Dirty, KernelRegions, InChunk;
    ok, results, total, from := true, [], 0, [];
    NoPages(vmas, answers);
    for i := 0 to |vmas|
      invariant forall k :: 0 <= k < i && vmas[k].writable ==> !answers[k].NotPermitted?
      invariant total == |AllDirty(vmas[..i], answers[..i])| && Covers(results, from, vmas, answers, i)
    {
      NewPages(vmas, answers, i);
      if !vmas[i].writable {
        continue;
      }
      if answers[i].NotPermitted? {
        return false, [], 0, [];
      }
      if answers[i].OtherError? {
        continue;
      }
      var r := ScanVma(vmas[i].start, vmas[i].end, answers[i].regions);
      assert CountsVma(r, vmas[i], answers[i]);
      results := results + [r];
      from := from + [i];
      total := total + r.dirtyPages;
    }
    assert vmas[..|vmas|] == vmas && answers[..|vmas|] == answers;
  }

  lemma NoPages(vmas: seq<Vma>, answers: seq<Answer>)
    requires |vmas| == |answers|
    ensures AllDirty(vmas[..0], answers[..0]) == {}
  {
  }

  lemma NewPages(vmas: seq<Vma>, answers: seq<Answer>, i: nat)
    requires KernelAnswers(vmas, answers) && i < |vmas|
    ensures |AllDirty(vmas[..i + 1], answers[..i + 1])|
            == |AllDirty(vmas[..i], answers[..i])|
               + if Scanned(vmas[i], answers[i]) then |Dirty(vmas[i].start, vmas[i].end, answers[i].regions)| else 0
  {
    var before := AllDirty(vmas[..i], answers[..i]);
    assert vmas[..i + 1][..i] == vmas[..i] && answers[..i + 1][..i] == answers[..i];
    if Scanned(vmas[i], answers[i]) {
      var now := Dirty(vmas[i].start, vmas[i].end, answers[i].regions);
      forall a | a in before
        ensures a !in now
      {
        var k := AllDirtyIn(vmas[..i], answers[..i], a);
        assert vmas[..i][k] == vmas[k];
      }
      assert |before + now| == |before| + |now|;
    }
  }
}
