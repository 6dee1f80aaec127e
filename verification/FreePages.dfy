// The physical page allocator of sys/memory.c: a singly linked list of free chunks whose headers
// live inside the free pages themselves.

/** Physical memory and the canonical form of the free list. */
module FreeLists {

  // One 64-bit word, seen through the bit fields of struct pte.
  datatype Word = Word(flags: bv8, ppn: nat, rest: nat)

  const ZERO_WORD := Word(0, 0, 0)
  const WORDS_PER_PAGE: nat := 512

  type PageWords = w: seq<Word> | |w| == WORDS_PER_PAGE witness seq(WORDS_PER_PAGE, _ => ZERO_WORD)

  // A page of RAM holds either a free-chunk header or 512 words.
  datatype Page =
    | Header(next: nat, cnt: nat)
    | Words(w: PageWords)

  ghost predicate ZeroPage(p: Page) {
    p.Words? && forall k :: 0 <= k < WORDS_PER_PAGE ==> p.w[k] == ZERO_WORD
  }

  // Page number 0 stands for the null pointer; RAM starts far above it.
  const NULL: nat := 0

  datatype Chunk = Chunk(start: nat, cnt: nat) {
    function End(): nat { start + cnt }

    predicate Has(p: int) { start <= p < start + cnt }
  }

  // Page p lies in one of the chunks.
  ghost predicate Free(cs: seq<Chunk>, p: int) {
    exists i :: 0 <= i < |cs| && cs[i].Has(p)
  }

  ghost function FreeSet(cs: seq<Chunk>, limit: nat): set<nat> {
    set p: nat | p < limit && Free(cs, p)
  }

  // Address-sorted and disjoint; neighbours may touch.
  ghost predicate Sorted(cs: seq<Chunk>, limit: nat) {
    && (forall i :: 0 <= i < |cs| ==> NULL < cs[i].start && 0 < cs[i].cnt && cs[i].End() <= limit)
    && (forall i, j :: 0 <= i < j < |cs| ==> cs[i].End() <= cs[j].start)
  }

  // The canonical form: no two chunks touch, so every chunk is a maximal run of free pages.
  ghost predicate Canonical(cs: seq<Chunk>, limit: nat) {
    && Sorted(cs, limit)
    && (forall i, j :: 0 <= i < j < |cs| ==> cs[i].End() < cs[j].start)
  }

  // The i-th link of the list, null off either end.
  ghost function At(cs: seq<Chunk>, i: int): nat {
    if 0 <= i < |cs| then cs[i].start else NULL
  }

  ghost predicate Ascending(cs: seq<Chunk>) {
    && (forall i :: 0 <= i < |cs| ==> NULL < cs[i].start)
    && (forall i, j :: 0 <= i < j < |cs| ==> cs[i].start < cs[j].start)
  }

  // The headers in memory, followed from head, spell out exactly the chunks cs.
  ghost predicate Linked(mem: seq<Page>, head: nat, cs: seq<Chunk>) {
    && head == At(cs, 0)
    && (forall i :: 0 <= i < |cs| ==> cs[i].start < |mem|)
    && (forall i {:trigger mem[cs[i].start]} :: 0 <= i < |cs| ==> mem[cs[i].start] == Header(At(cs, i + 1), cs[i].cnt))
  }

  // There is only one canonical list for a given set of free pages.
  lemma {:induction false} CanonicalIsUnique(a: seq<Chunk>, b: seq<Chunk>, limit: nat)
    requires Canonical(a, limit) && Canonical(b, limit)
    requires SamePages(a, b)
    ensures a == b
  {
    if |a| == 0 || |b| == 0 {
      if |a| > 0 { assert a[0].Has(a[0].start); assert Free(a, a[0].start); }
      if |b| > 0 { assert b[0].Has(b[0].start); assert Free(b, b[0].start); }
    } else {
      FirstChunkBelow(a, b, limit);
      FirstChunkBelow(b, a, limit);
      SameTails(a, b, limit);
      CanonicalIsUnique(a[1..], b[1..], limit);
      assert a == [a[0]] + a[1..] && b == [b[0]] + b[1..];
    }
  }

  lemma SameTails(a: seq<Chunk>, b: seq<Chunk>, limit: nat)
    requires Canonical(a, limit) && Canonical(b, limit) && SamePages(a, b)
    requires |a| > 0 && |b| > 0 && a[0] == b[0]
    ensures SamePages(a[1..], b[1..]) && Canonical(a[1..], limit) && Canonical(b[1..], limit)
  {
    forall p ensures Free(a[1..], p) <==> Free(b[1..], p) {
      FreeTail(a, p, limit);
      FreeTail(b, p, limit);
    }
  }

  lemma FirstChunkBelow(a: seq<Chunk>, b: seq<Chunk>, limit: nat)
    requires Canonical(a, limit) && Canonical(b, limit) && |a| > 0 && |b| > 0
    requires SamePages(a, b)
    ensures a[0].start == b[0].start && b[0].End() <= a[0].End()
  {
    assert a[0].Has(a[0].start) && b[0].Has(b[0].start);
    assert Free(a, a[0].start) && Free(b, b[0].start);
    assert Free(b, a[0].start) && Free(a, b[0].start);
    assert !Free(a, a[0].End());
    assert !b[0].Has(a[0].End());
  }

  lemma FreeTail(a: seq<Chunk>, p: int, limit: nat)
    requires Sorted(a, limit) && |a| > 0
    ensures Free(a[1..], p) <==> Free(a, p) && !a[0].Has(p)
  {
    if Free(a, p) && !a[0].Has(p) {
      var i :| 0 <= i < |a| && a[i].Has(p);
      assert a[1..][i - 1].Has(p);
    }
    if Free(a[1..], p) {
      var i :| 0 <= i < |a[1..]| && a[1..][i].Has(p);
      assert a[i + 1].Has(p);
    }
  }

  lemma FreeConcat(a: seq<Chunk>, b: seq<Chunk>, p: int)
    ensures Free(a + b, p) <==> Free(a, p) || Free(b, p)
  {
    if i :| 0 <= i < |a| && a[i].Has(p) {
      assert (a + b)[i].Has(p);
    }
    if i :| 0 <= i < |b| && b[i].Has(p) {
      assert (a + b)[|a| + i].Has(p);
    }
  }

  // The pages of cs, cut into the chunks before b, chunk b, and the chunks behind it.
  lemma FreeSplit(cs: seq<Chunk>, b: nat, p: int)
    requires b < |cs|
    ensures Free(cs, p) <==> Free(cs[..b], p) || cs[b].Has(p) || Free(cs[b + 1..], p)
  {
    if i :| 0 <= i < |cs| && cs[i].Has(p) {
      if i < b { assert cs[..b][i].Has(p); }
      if i > b { assert cs[b + 1..][i - b - 1].Has(p); }
    }
    if i :| 0 <= i < b && cs[..b][i].Has(p) { assert cs[i].Has(p); }
    var rest := cs[b + 1..];
    if i :| 0 <= i < |rest| && rest[i].Has(p) { assert cs[b + 1 + i].Has(p); }
  }

  // Both lists hold the same pages.
  ghost predicate SamePages(cs: seq<Chunk>, ds: seq<Chunk>) {
    forall p :: Free(cs, p) <==> Free(ds, p)
  }

  // ds holds the pages of cs and the n pages from pp, which cs does not hold.
  ghost predicate Adds(cs: seq<Chunk>, ds: seq<Chunk>, pp: nat, n: nat) {
    forall p :: (Free(ds, p) <==> Free(cs, p) || pp <= p < pp + n) && (pp <= p < pp + n ==> !Free(cs, p))
  }

  // The two memories agree on every page that is not on the list.
  ghost predicate SameUsed(cs: seq<Chunk>, m0: seq<Page>, m1: seq<Page>) {
    && |m0| == |m1|
    && (forall p :: 0 <= p < |m0| && !Free(cs, p) ==> m0[p] == m1[p])
  }

  ghost predicate FreeRun(cs: seq<Chunk>, p: nat, n: nat) {
    forall q :: p <= q < p + n ==> Free(cs, q)
  }

  // A run of n free pages exists exactly when one single chunk is long enough.
  lemma RunsLieInOneChunk(cs: seq<Chunk>, limit: nat, n: nat)
    requires Canonical(cs, limit) && 0 < n
    ensures (exists i :: 0 <= i < |cs| && n <= cs[i].cnt) <==> (exists p: nat :: FreeRun(cs, p, n))
  {
    if i :| 0 <= i < |cs| && n <= cs[i].cnt {
      assert forall q :: cs[i].start <= q < cs[i].start + n ==> cs[i].Has(q);
      assert FreeRun(cs, cs[i].start, n);
    }
    if p: nat :| FreeRun(cs, p, n) {
      assert Free(cs, p);
      var i :| 0 <= i < |cs| && cs[i].Has(p);
      assert !Free(cs, cs[i].End());
      assert n <= cs[i].cnt;
    }
  }

  // The chunk alloc_phys_pages settles on: the first among the smallest that suffice.
  ghost predicate BestFit(cs: seq<Chunk>, n: nat, b: int) {
    && 0 <= b < |cs| && n <= cs[b].cnt
    && BestSoFar(cs, |cs|, cs[b].cnt, n)
    && BetterThan(cs, b, cs[b].cnt, n)
  }

  // None of the first k chunks beats one of length best for a request of n pages.
  ghost predicate BestSoFar(cs: seq<Chunk>, k: nat, best: nat, n: nat) {
    forall i :: 0 <= i < k && i < |cs| && n <= cs[i].cnt ==> n <= best <= cs[i].cnt
  }

  ghost predicate BetterThan(cs: seq<Chunk>, k: nat, best: nat, n: nat) {
    n <= best ==> forall i :: 0 <= i < k && i < |cs| && n <= cs[i].cnt ==> best < cs[i].cnt
  }

  // Looking at chunk i: it is the best one so far if it beats chunk b, and otherwise b still is.
  lemma BestStep(cs: seq<Chunk>, b: nat, i: nat, n: nat)
    requires b < |cs| && b <= i < |cs| && BestSoFar(cs, i, cs[b].cnt, n) && BetterThan(cs, b, cs[b].cnt, n)
    ensures var k := if cs[b].cnt < n || n <= cs[i].cnt < cs[b].cnt then i else b;
      BestSoFar(cs, i + 1, cs[k].cnt, n) && BetterThan(cs, k, cs[k].cnt, n)
  {
  }

  lemma BestOfAll(cs: seq<Chunk>, b: nat, n: nat)
    requires b < |cs| && BestSoFar(cs, |cs|, cs[b].cnt, n) && BetterThan(cs, b, cs[b].cnt, n)
    ensures BestFit(cs, n, b) || forall k :: 0 <= k < |cs| ==> cs[k].cnt < n
  {
  }

  function Total(cs: seq<Chunk>): nat {
    if |cs| == 0 then 0 else cs[0].cnt + Total(cs[1..])
  }

  lemma {:induction false} TotalSnoc(cs: seq<Chunk>, c: Chunk)
    ensures Total(cs + [c]) == Total(cs) + c.cnt
  {
    if |cs| == 0 {
      assert cs + [c] == [c] + [];
    } else {
      TotalSnoc(cs[1..], c);
      assert (cs + [c])[1..] == cs[1..] + [c];
    }
  }

  // The sum of the chunk lengths is the number of free pages.
  lemma {:induction false} TotalCountsPages(cs: seq<Chunk>, limit: nat)
    requires Sorted(cs, limit)
    ensures |FreeSet(cs, limit)| == Total(cs)
  {
    if |cs| == 0 {
      assert FreeSet(cs, limit) == {};
    } else {
      TotalCountsPages(cs[1..], limit);
      var run := set p: nat | p < limit && cs[0].Has(p);
      IntervalSize(cs[0].start, cs[0].cnt, limit, run);
      FirstRun(cs, limit, run, FreeSet(cs[1..], limit));
    }
  }

  lemma FirstRun(cs: seq<Chunk>, limit: nat, run: set<nat>, rest: set<nat>)
    requires Sorted(cs, limit) && |cs| > 0
    requires run == set p: nat | p < limit && cs[0].Has(p)
    requires rest == FreeSet(cs[1..], limit)
    ensures run !! rest && FreeSet(cs, limit) == run + rest
  {
    forall p: nat ensures Free(cs[1..], p) <==> Free(cs, p) && !cs[0].Has(p) {
      FreeTail(cs, p, limit);
    }
    forall p: nat | cs[0].Has(p) ensures Free(cs, p) {}
  }

  lemma {:induction false} IntervalSize(start: nat, cnt: nat, limit: nat, s: set<nat>)
    requires start + cnt <= limit
    requires forall p: nat :: p in s <==> start <= p < start + cnt
    ensures |s| == cnt
  {
    if cnt == 0 {
      assert s == {};
    } else {
      IntervalSize(start, cnt - 1, limit, s - {start + cnt - 1});
    }
  }
}

module FreePages {
  import opened FreeLists

  // The list is sorted, and in memory, but neighbours may touch.
  ghost predicate ShapeOf(mem: seq<Page>, head: nat, cs: seq<Chunk>) {
    Sorted(cs, |mem|) && Linked(mem, head, cs)
  }

  // What alloc_phys_pages does with a request: a null pointer for zero pages, a run, or a panic.
  datatype Grant = NullPtr | Pages(pp: nat) | Panic

  class PhysMem {
    var mem: seq<Page>
    var freeChunkList: nat
    ghost var chunks: seq<Chunk>

    ghost predicate Shape()
      reads this
    {
      ShapeOf(mem, freeChunkList, chunks)
    }

    ghost predicate Valid()
      reads this
    {
      Canonical(chunks, |mem|) && Linked(mem, freeChunkList, chunks)
    }

    ghost function FreePageSet(): set<nat>
      reads this
    {
      FreeSet(chunks, |mem|)
    }

    method AllocPhysPages(cnt: nat) returns (r: Grant)
      requires Valid()
      modifies this
      ensures Valid() && |mem| == |old(mem)|
      ensures r.NullPtr? <==> cnt == 0
      ensures r.Panic? <==> cnt != 0 && !exists p: nat :: FreeRun(old(chunks), p, cnt)
      ensures !r.Pages? ==> mem == old(mem) && chunks == old(chunks)
      // the grant is the tail of a smallest sufficient chunk, and zeroed
      ensures r.Pages? ==> exists b :: BestFit(old(chunks), cnt, b) && r.pp == old(chunks)[b].End() - cnt
      ensures r.Pages? ==>
        && NULL < r.pp && r.pp + cnt <= |mem|
        && Adds(chunks, old(chunks), r.pp, cnt)
        && SameUsed(old(chunks), old(mem), mem)
        && (forall p :: r.pp <= p < r.pp + cnt ==> ZeroPage(mem[p]))
    {
      if cnt == 0 { return NullPtr; }
      RunsLieInOneChunk(chunks, |mem|, cnt);
      if freeChunkList == NULL { return Panic; }
      var bestPrev, bestCurr, bestCnt;
      ghost var b;
      bestPrev, bestCurr, bestCnt, b := FindBest(cnt);
      if mem[bestCurr].cnt < cnt { return Panic; }
      assert BestFit(chunks, cnt, b);
      var pp := TakeTail(bestPrev, bestCurr, bestCnt, cnt, b);
      ZeroPages(pp, cnt);
      r := Pages(pp);
    }

    // the search loop of alloc_phys_pages
    method FindBest(cnt: nat) returns (bestPrev: nat, bestCurr: nat, bestCnt: nat, ghost b: nat)
      requires Valid() && freeChunkList != NULL
      ensures b < |chunks| && bestCurr == chunks[b].start && bestCnt == chunks[b].cnt
      ensures bestPrev == At(chunks, b - 1)
      ensures BestFit(chunks, cnt, b) || forall k :: 0 <= k < |chunks| ==> chunks[k].cnt < cnt
    {
      bestCnt := mem[freeChunkList].cnt;
      bestPrev := NULL;
      bestCurr := freeChunkList;
      b := 0;
      var prev := NULL;
      var curr := freeChunkList;
      ghost var i := 0;
      while curr != NULL
        invariant i <= |chunks| && curr == At(chunks, i) && prev == At(chunks, i - 1)
        invariant b < |chunks| && b <= i && bestPrev == At(chunks, b - 1)
        invariant bestCurr == chunks[b].start && bestCnt == chunks[b].cnt
        invariant BestSoFar(chunks, i, bestCnt, cnt) && BetterThan(chunks, b, bestCnt, cnt)
        decreases |chunks| - i
      {
        assert mem[chunks[i].start].Header?;
        BestStep(chunks, b, i, cnt);
        if bestCnt < cnt || (cnt <= mem[curr].cnt && mem[curr].cnt < bestCnt) {
          bestCnt := mem[curr].cnt;
          bestPrev := prev;
          bestCurr := curr;
          b := i;
        }
        prev := curr;
        curr := mem[curr].next;
        i := i + 1;
      }
      BestOfAll(chunks, b, cnt);
    }

    // the part of alloc_phys_pages that unlinks the chunk, or cuts its tail off
    method TakeTail(bestPrev: nat, bestCurr: nat, bestCnt: nat, cnt: nat, ghost b: nat) returns (pp: nat)
      requires Valid() && b < |chunks| && 0 < cnt <= bestCnt
      requires bestPrev == At(chunks, b - 1) && bestCurr == chunks[b].start && bestCnt == chunks[b].cnt
      modifies this
      ensures Valid() && pp == old(chunks)[b].End() - cnt
      ensures Adds(chunks, old(chunks), pp, cnt)
      ensures SameUsed(old(chunks), old(mem), mem)
    {
      assert mem[chunks[b].start].Header?;
      if mem[bestCurr].cnt == cnt {
        Unlink(bestPrev, bestCurr, b);
        pp := bestCurr;
      } else {
        CutTail(bestCurr, cnt, b);
        pp := bestCurr + (bestCnt - cnt);
      }
    }

    method CutTail(curr: nat, cnt: nat, ghost b: nat)
      requires Valid() && b < |chunks| && curr == chunks[b].start && 0 < cnt < chunks[b].cnt
      modifies this
      ensures Valid() && SameUsed(old(chunks), old(mem), mem)
      ensures Adds(chunks, old(chunks), old(chunks)[b].End() - cnt, cnt)
    {
      assert mem[chunks[b].start].Header?;
      ShrinkChunk(mem, freeChunkList, chunks, b, cnt);
      StartIsFree(chunks, b);
      mem := mem[curr := mem[curr].(cnt := mem[curr].cnt - cnt)];
      chunks := Shrunk(chunks, b, cnt);
    }

    method Unlink(prev: nat, curr: nat, ghost b: nat)
      requires Valid() && b < |chunks| && prev == At(chunks, b - 1) && curr == chunks[b].start
      modifies this
      ensures Valid() && SameUsed(old(chunks), old(mem), mem)
      ensures Adds(chunks, old(chunks), curr, old(chunks)[b].cnt)
    {
      assert mem[chunks[b].start].Header?;
      RemoveChunk(mem, freeChunkList, chunks, b);
      if prev == NULL {
        freeChunkList := mem[curr].next;
      } else {
        assert mem[chunks[b - 1].start].Header?;
        StartIsFree(chunks, b - 1);
        mem := mem[prev := mem[prev].(next := mem[curr].next)];
      }
      chunks := Removed(chunks, b);
    }

    // memset over a run of pages that are no longer on the list
    method ZeroPages(pp: nat, cnt: nat)
      requires Valid() && pp + cnt <= |mem|
      requires forall p :: pp <= p < pp + cnt ==> !Free(chunks, p)
      modifies this`mem
      ensures Valid() && |mem| == |old(mem)|
      ensures forall p :: pp <= p < pp + cnt ==> ZeroPage(mem[p])
      ensures forall p :: 0 <= p < |mem| && !(pp <= p < pp + cnt) ==> mem[p] == old(mem)[p]
    {
      StartsOutside(chunks, pp, cnt);
      var zeros := seq(WORDS_PER_PAGE, _ => ZERO_WORD);
      for k := 0 to cnt
        invariant |mem| == |old(mem)|
        invariant forall p :: pp <= p < pp + k ==> ZeroPage(mem[p])
        invariant forall p :: 0 <= p < |mem| && !(pp <= p < pp + k) ==> mem[p] == old(mem)[p]
      {
        mem := mem[pp + k := Words(zeros)];
      }
    }

    method FreePhysPages(pp: nat, cnt: nat)
      requires Valid() && pp + cnt <= |mem|
      requires forall p :: pp <= p < pp + cnt ==> !Free(chunks, p)
      modifies this
      ensures Valid() && |mem| == |old(mem)|
      ensures pp == NULL || cnt == 0 ==> mem == old(mem) && chunks == old(chunks)
      ensures pp != NULL && cnt != 0 ==> Adds(old(chunks), chunks, pp, cnt) && SameUsed(chunks, old(mem), mem)
    {
      if pp == NULL || cnt == 0 { return; }
      InsertByAddress(pp, cnt);
      Coalesce();
    }

    // the first half of free_phys_pages: the new chunk goes in at its place by address
    method InsertByAddress(pp: nat, cnt: nat)
      requires Valid() && NULL < pp && 0 < cnt && pp + cnt <= |mem|
      requires forall p :: pp <= p < pp + cnt ==> !Free(chunks, p)
      modifies this
      ensures Shape() && Adds(old(chunks), chunks, pp, cnt) && SameUsed(chunks, old(mem), mem)
    {
      ghost var at := InsertPoint(chunks, pp, cnt, |mem|);
      InsertChunk(mem, freeChunkList, chunks, at, Chunk(pp, cnt));
      if freeChunkList == NULL || pp < freeChunkList {
        mem := mem[pp := Header(freeChunkList, cnt)];
        freeChunkList := pp;
      } else {
        var prev, curr := FindPlace(pp, at);
        mem := mem[prev := mem[prev].(next := pp)];
        mem := mem[pp := Header(curr, cnt)];
      }
      chunks := Inserted(chunks, at, Chunk(pp, cnt));
    }

    method FindPlace(pp: nat, ghost at: nat) returns (prev: nat, curr: nat)
      requires Valid() && freeChunkList != NULL && 0 < at <= |chunks|
      requires forall i :: 0 <= i < at ==> chunks[i].start < pp
      requires forall i :: at <= i < |chunks| ==> pp <= chunks[i].start
      ensures prev == At(chunks, at - 1) && curr == At(chunks, at)
    {
      prev := freeChunkList;
      assert mem[chunks[0].start].Header?;
      curr := mem[freeChunkList].next;
      ghost var k := 1;
      while curr != NULL && curr < pp
        invariant 1 <= k <= at && prev == At(chunks, k - 1) && curr == At(chunks, k)
        decreases |chunks| - k
      {
        assert mem[chunks[k].start].Header?;
        prev := curr;
        curr := mem[curr].next;
        k := k + 1;
      }
    }

    // the loop of free_phys_pages that merges touching neighbours
    method Coalesce()
      requires Shape()
      modifies this
      ensures Valid() && SamePages(old(chunks), chunks) && SameUsed(chunks, old(mem), mem)
    {
      var curr := freeChunkList;
      ghost var i := 0;
      while curr != NULL && mem[curr].next != NULL
        invariant i <= |chunks| && curr == At(chunks, i)
        invariant Shape() && GapsBefore(chunks, i)
        invariant SamePages(old(chunks), chunks) && SameUsed(chunks, old(mem), mem)
        decreases |chunks| - i
      {
        assert mem[chunks[i].start].Header? && mem[chunks[i + 1].start].Header?;
        var currEnd := curr + mem[curr].cnt;
        var nextStart := mem[curr].next;
        if currEnd == nextStart {
          MergeInPlace(mem, freeChunkList, chunks, i);
          MergeNext(curr, nextStart, i);
        } else {
          curr := nextStart;
          i := i + 1;
        }
      }
      assert i < |chunks| ==> mem[chunks[i].start].Header?;
    }

    method MergeNext(curr: nat, next: nat, ghost i: nat)
      requires i + 1 < |chunks| && curr < |mem| && next < |mem| && curr != next
      requires mem[curr].Header? && mem[next].Header?
      modifies this`mem, this`chunks
      ensures mem == HeadersMerged(old(mem), curr, next) && chunks == Merged(old(chunks), i)
    {
      mem := mem[curr := Header(mem[curr].next, mem[curr].cnt + mem[next].cnt)];
      mem := mem[curr := Header(mem[next].next, mem[curr].cnt)];
      chunks := Merged(chunks, i);
    }

    // a store into a page that is in use
    method Store(p: nat, page: Page)
      requires Valid() && p < |mem| && !Free(chunks, p)
      modifies this`mem
      ensures Valid() && mem == old(mem)[p := page]
    {
      forall i | 0 <= i < |chunks| ensures chunks[i].start != p {
        StartIsFree(chunks, i);
      }
      mem := mem[p := page];
    }

    method FreePhysPageCount() returns (count: nat)
      requires Valid()
      ensures count == |FreePageSet()|
    {
      count := 0;
      var curr := freeChunkList;
      ghost var i := 0;
      while curr != NULL
        invariant i <= |chunks| && curr == At(chunks, i)
        invariant count == Total(chunks[..i])
        decreases |chunks| - i
      {
        assert mem[chunks[i].start].Header?;
        TotalSnoc(chunks[..i], chunks[i]);
        assert chunks[..i + 1] == chunks[..i] + [chunks[i]];
        count := count + mem[curr].cnt;
        curr := mem[curr].next;
        i := i + 1;
      }
      assert chunks[..i] == chunks;
      TotalCountsPages(chunks, |mem|);
    }
  }

  // The sum of two neighbours, put into the header of the first in two steps.
  ghost function HeadersMerged(m: seq<Page>, p: nat, q: nat): seq<Page>
    requires p < |m| && q < |m| && p != q && m[p].Header? && m[q].Header?
  {
    var m1 := m[p := Header(m[p].next, m[p].cnt + m[q].cnt)];
    m1[p := Header(m1[q].next, m1[p].cnt)]
  }

  lemma MergeInPlace(m: seq<Page>, head: nat, cs: seq<Chunk>, i: nat)
    requires Sorted(cs, |m|) && Linked(m, head, cs) && i + 1 < |cs| && cs[i].End() == cs[i + 1].start
    ensures var p, q := cs[i].start, cs[i + 1].start;
      && p < |m| && q < |m| && p != q && m[p].Header? && m[q].Header?
      && ShapeOf(HeadersMerged(m, p, q), head, Merged(cs, i))
      && SamePages(cs, Merged(cs, i)) && SameUsed(Merged(cs, i), m, HeadersMerged(m, p, q))
      && (GapsBefore(cs, i) ==> GapsBefore(Merged(cs, i), i))
  {
    var p, q := cs[i].start, cs[i + 1].start;
    assert m[p].Header? && m[q].Header?;
    MergeChunks(m, head, cs, i);
    assert HeadersMerged(m, p, q) == m[p := Header(At(cs, i + 2), cs[i].cnt + cs[i + 1].cnt)];
  }

  ghost function Removed(cs: seq<Chunk>, b: nat): seq<Chunk>
    requires b < |cs|
  {
    cs[..b] + cs[b + 1..]
  }

  ghost function Shrunk(cs: seq<Chunk>, b: nat, n: nat): seq<Chunk>
    requires b < |cs| && n <= cs[b].cnt
  {
    cs[b := Chunk(cs[b].start, cs[b].cnt - n)]
  }

  ghost function Inserted(cs: seq<Chunk>, at: nat, c: Chunk): seq<Chunk>
    requires at <= |cs|
  {
    cs[..at] + [c] + cs[at..]
  }

  ghost function Merged(cs: seq<Chunk>, i: nat): seq<Chunk>
    requires i + 1 < |cs|
  {
    cs[..i] + [Chunk(cs[i].start, cs[i].cnt + cs[i + 1].cnt)] + cs[i + 2..]
  }

  // Chunks up to i touch nothing behind them.
  ghost predicate GapsBefore(cs: seq<Chunk>, i: nat) {
    forall k, j :: 0 <= k < i && k < j < |cs| ==> cs[k].End() < cs[j].start
  }

  lemma StartIsFree(cs: seq<Chunk>, i: nat)
    requires i < |cs| && 0 < cs[i].cnt
    ensures Free(cs, cs[i].start)
  {
    assert cs[i].Has(cs[i].start);
  }

  // Chunks start outside any run of used pages.
  lemma StartsOutside(cs: seq<Chunk>, pp: nat, cnt: nat)
    requires forall i :: 0 <= i < |cs| ==> 0 < cs[i].cnt
    requires forall p :: pp <= p < pp + cnt ==> !Free(cs, p)
    ensures forall i :: 0 <= i < |cs| ==> !(pp <= cs[i].start < pp + cnt)
  {
    forall i | 0 <= i < |cs| ensures !(pp <= cs[i].start < pp + cnt) {
      StartIsFree(cs, i);
    }
  }

  // Unlinking chunk b: the pointer surgery and the pages it takes off the list.
  lemma RemoveChunk(mem: seq<Page>, head: nat, cs: seq<Chunk>, b: nat)
    requires Canonical(cs, |mem|) && Linked(mem, head, cs) && b < |cs|
    ensures Canonical(Removed(cs, b), |mem|)
    ensures Adds(Removed(cs, b), cs, cs[b].start, cs[b].cnt)
    ensures if b == 0 then Linked(mem, At(cs, b + 1), Removed(cs, b))
      else Linked(mem[cs[b - 1].start := Header(At(cs, b + 1), cs[b - 1].cnt)], head, Removed(cs, b))
  {
    RemovedPages(cs, b, |mem|);
    RemovedCanonical(cs, b, |mem|);
    LinkedRemove(mem, head, cs, b);
  }

  lemma RemovedPages(cs: seq<Chunk>, b: nat, limit: nat)
    requires Canonical(cs, limit) && b < |cs|
    ensures Adds(Removed(cs, b), cs, cs[b].start, cs[b].cnt)
  {
    forall p ensures Free(Removed(cs, b), p) <==> Free(cs, p) && !cs[b].Has(p) {
      FreeSplit(cs, b, p);
      FreeConcat(cs[..b], cs[b + 1..], p);
    }
    forall p | cs[b].Has(p) ensures Free(cs, p) {}
  }

  lemma RemovedCanonical(cs: seq<Chunk>, b: nat, limit: nat)
    requires Canonical(cs, limit) && b < |cs|
    ensures Canonical(Removed(cs, b), limit)
  {
    var ds := Removed(cs, b);
    forall i | 0 <= i < |ds| ensures ds[i] == cs[if i < b then i else i + 1] {}
  }

  lemma LinkedRemove(mem: seq<Page>, head: nat, cs: seq<Chunk>, b: nat)
    requires Ascending(cs) && Linked(mem, head, cs) && b < |cs|
    ensures if b == 0 then Linked(mem, At(cs, b + 1), Removed(cs, b))
      else Linked(mem[cs[b - 1].start := Header(At(cs, b + 1), cs[b - 1].cnt)], head, Removed(cs, b))
  {
    var ds := Removed(cs, b);
    forall i | 0 <= i < |ds| ensures ds[i] == cs[if i < b then i else i + 1] {}
  }

  // Cutting n pages off the end of chunk b.
  lemma ShrinkChunk(mem: seq<Page>, head: nat, cs: seq<Chunk>, b: nat, n: nat)
    requires Canonical(cs, |mem|) && Linked(mem, head, cs) && b < |cs| && 0 < n < cs[b].cnt
    ensures Canonical(Shrunk(cs, b, n), |mem|)
    ensures Linked(mem[cs[b].start := Header(At(cs, b + 1), cs[b].cnt - n)], head, Shrunk(cs, b, n))
    ensures Adds(Shrunk(cs, b, n), cs, cs[b].End() - n, n)
  {
    ShrunkPages(cs, b, n, |mem|);
    ShrunkCanonical(cs, b, n, |mem|);
    LinkedShrink(mem, head, cs, b, n);
  }

  lemma ShrunkPages(cs: seq<Chunk>, b: nat, n: nat, limit: nat)
    requires Canonical(cs, limit) && b < |cs| && 0 < n < cs[b].cnt
    ensures Adds(Shrunk(cs, b, n), cs, cs[b].End() - n, n)
  {
    var ds := Shrunk(cs, b, n);
    forall p ensures Free(ds, p) <==> Free(cs, p) && !(cs[b].End() - n <= p < cs[b].End()) {
      FreeSplit(cs, b, p);
      FreeSplit(ds, b, p);
      assert ds[..b] == cs[..b] && ds[b + 1..] == cs[b + 1..];
    }
    forall p | cs[b].Has(p) ensures Free(cs, p) {}
  }

  lemma ShrunkCanonical(cs: seq<Chunk>, b: nat, n: nat, limit: nat)
    requires Canonical(cs, limit) && b < |cs| && 0 < n < cs[b].cnt
    ensures Canonical(Shrunk(cs, b, n), limit)
  {
  }

  lemma LinkedShrink(mem: seq<Page>, head: nat, cs: seq<Chunk>, b: nat, n: nat)
    requires Ascending(cs) && Linked(mem, head, cs) && b < |cs| && n < cs[b].cnt
    ensures Linked(mem[cs[b].start := Header(At(cs, b + 1), cs[b].cnt - n)], head, Shrunk(cs, b, n))
  {
  }

  // Where the insertion scan stops: behind all chunks that start below pp.
  lemma InsertPoint(cs: seq<Chunk>, pp: nat, cnt: nat, limit: nat) returns (at: nat)
    requires Sorted(cs, limit) && 0 < cnt
    requires forall p :: pp <= p < pp + cnt ==> !Free(cs, p)
    ensures at <= |cs|
    ensures forall i :: 0 <= i < at ==> cs[i].start < pp && cs[i].End() <= pp
    ensures forall i :: at <= i < |cs| ==> pp + cnt <= cs[i].start
  {
    at := 0;
    while at < |cs| && cs[at].start < pp
      invariant at <= |cs|
      invariant forall i :: 0 <= i < at ==> cs[i].start < pp
    {
      at := at + 1;
    }
    StartsOutside(cs, pp, cnt);
    forall i | 0 <= i < at ensures cs[i].End() <= pp {
      assert cs[i].Has(pp) ==> Free(cs, pp);
    }
  }

  lemma InsertChunk(mem: seq<Page>, head: nat, cs: seq<Chunk>, at: nat, c: Chunk)
    requires Sorted(cs, |mem|) && Linked(mem, head, cs)
    requires at <= |cs| && NULL < c.start && 0 < c.cnt && c.End() <= |mem|
    requires forall p :: c.Has(p) ==> !Free(cs, p)
    requires forall i :: 0 <= i < at ==> cs[i].End() <= c.start
    requires forall i :: at <= i < |cs| ==> c.End() <= cs[i].start
    ensures Sorted(Inserted(cs, at, c), |mem|)
    ensures Adds(cs, Inserted(cs, at, c), c.start, c.cnt)
    ensures if at == 0 then Linked(mem[c.start := Header(At(cs, at), c.cnt)], c.start, Inserted(cs, at, c))
      else Linked(mem[cs[at - 1].start := Header(c.start, cs[at - 1].cnt)][c.start := Header(At(cs, at), c.cnt)],
                  head, Inserted(cs, at, c))
  {
    InsertedPages(cs, at, c);
    InsertedSorted(cs, at, c, |mem|);
    LinkedInsert(mem, head, cs, at, c);
  }

  lemma InsertedPages(cs: seq<Chunk>, at: nat, c: Chunk)
    requires at <= |cs|
    ensures forall p :: Free(Inserted(cs, at, c), p) <==> Free(cs, p) || c.Has(p)
  {
    var ds := Inserted(cs, at, c);
    forall p ensures Free(ds, p) <==> Free(cs, p) || c.Has(p) {
      FreeSplit(ds, at, p);
      assert ds[..at] == cs[..at] && ds[at + 1..] == cs[at..];
      FreeConcat(cs[..at], cs[at..], p);
      assert cs == cs[..at] + cs[at..];
    }
  }

  lemma InsertedSorted(cs: seq<Chunk>, at: nat, c: Chunk, limit: nat)
    requires Sorted(cs, limit) && at <= |cs| && NULL < c.start && 0 < c.cnt && c.End() <= limit
    requires forall i :: 0 <= i < at ==> cs[i].End() <= c.start
    requires forall i :: at <= i < |cs| ==> c.End() <= cs[i].start
    ensures Sorted(Inserted(cs, at, c), limit)
  {
    var ds := Inserted(cs, at, c);
    forall i | 0 <= i < |ds| ensures ds[i] == if i == at then c else cs[if i < at then i else i - 1] {}
  }

  lemma LinkedInsert(mem: seq<Page>, head: nat, cs: seq<Chunk>, at: nat, c: Chunk)
    requires Ascending(cs) && Linked(mem, head, cs) && at <= |cs| && c.start < |mem|
    requires forall i :: 0 <= i < |cs| ==> cs[i].start != c.start
    ensures if at == 0 then Linked(mem[c.start := Header(At(cs, at), c.cnt)], c.start, Inserted(cs, at, c))
      else Linked(mem[cs[at - 1].start := Header(c.start, cs[at - 1].cnt)][c.start := Header(At(cs, at), c.cnt)],
                  head, Inserted(cs, at, c))
  {
    var ds := Inserted(cs, at, c);
    forall i | 0 <= i < |ds| ensures ds[i] == if i == at then c else cs[if i < at then i else i - 1] {}
  }

  lemma MergeChunks(mem: seq<Page>, head: nat, cs: seq<Chunk>, i: nat)
    requires Sorted(cs, |mem|) && Linked(mem, head, cs)
    requires i + 1 < |cs| && cs[i].End() == cs[i + 1].start
    ensures Sorted(Merged(cs, i), |mem|) && SamePages(cs, Merged(cs, i))
    ensures Linked(mem[cs[i].start := Header(At(cs, i + 2), cs[i].cnt + cs[i + 1].cnt)], head, Merged(cs, i))
    ensures GapsBefore(cs, i) ==> GapsBefore(Merged(cs, i), i)
    ensures Free(cs, cs[i].start)
  {
    MergedPages(cs, i);
    MergedSorted(cs, i, |mem|);
    assert cs[i].Has(cs[i].start);
    LinkedMerge(mem, head, cs, i);
  }

  lemma MergedSorted(cs: seq<Chunk>, i: nat, limit: nat)
    requires Sorted(cs, limit) && i + 1 < |cs| && cs[i].End() == cs[i + 1].start
    ensures Sorted(Merged(cs, i), limit) && (GapsBefore(cs, i) ==> GapsBefore(Merged(cs, i), i))
  {
    var ds := Merged(cs, i);
    forall k | 0 <= k < |ds| && k != i ensures ds[k] == cs[if k < i then k else k + 1] {}
  }

  lemma MergedPages(cs: seq<Chunk>, i: nat)
    requires i + 1 < |cs| && cs[i].End() == cs[i + 1].start
    ensures SamePages(cs, Merged(cs, i))
  {
    var ds := Merged(cs, i);
    forall p ensures Free(ds, p) <==> Free(cs, p) {
      FreeSplit(ds, i, p);
      FreeSplit(cs, i, p);
      FreeSplit(cs[i + 1..], 0, p);
      assert ds[..i] == cs[..i] && ds[i + 1..] == cs[i + 2..];
      assert cs[i + 1..][..0] == [] && cs[i + 1..][1..] == cs[i + 2..];
      assert !Free(cs[i + 1..][..0], p);
    }
  }

  lemma LinkedMerge(mem: seq<Page>, head: nat, cs: seq<Chunk>, i: nat)
    requires Ascending(cs) && Linked(mem, head, cs) && i + 1 < |cs|
    ensures Linked(mem[cs[i].start := Header(At(cs, i + 2), cs[i].cnt + cs[i + 1].cnt)], head, Merged(cs, i))
  {
    var ds := Merged(cs, i);
    forall k | 0 <= k < |ds| && k != i ensures ds[k] == cs[if k < i then k else k + 1] {}
  }

  // Freeing the run that was just allocated brings back the very same list.
  method AllocThenFree(m: PhysMem, cnt: nat) returns (r: Grant)
    requires m.Valid()
    modifies m
    ensures m.Valid() && m.chunks == old(m.chunks) && m.freeChunkList == old(m.freeChunkList)
    ensures forall i :: 0 <= i < |m.chunks| ==> m.mem[m.chunks[i].start] == old(m.mem)[m.chunks[i].start]
  {
    r := m.AllocPhysPages(cnt);
    if r.Pages? {
      m.FreePhysPages(r.pp, cnt);
      CanonicalIsUnique(m.chunks, old(m.chunks), |m.mem|);
    }
  }
}
