// Copying and releasing a whole address space (sys/memory.c).

module PageTables {
  import opened FreeLists
  import opened FreePages
  import opened PageTrees

  ghost predicate NoneFree(cs: seq<Chunk>) { forall p: nat :: !Free(cs, p) }

  lemma PanicMeansNoneFree(cs: seq<Chunk>)
    requires !exists p: nat :: FreeRun(cs, p, 1)
    ensures NoneFree(cs)
  {
    forall p: nat ensures !Free(cs, p) {
      assert Free(cs, p) ==> FreeRun(cs, p, 1);
    }
  }

  // A tree none of whose pages is on the free list.
  ghost predicate Owned(m: seq<Page>, cs: seq<Chunk>, t: nat, lvl: nat) {
    && Tree(m, t, lvl)
    && (forall p :: p in Foot(m, t, lvl) ==> p != NULL && !Free(cs, p))
  }

  // State (m1, cs1) is state (m0, cs0) after the first n entries of table src have been deep-copied
  // into table dst. Only free pages were taken, and all of them ended up below dst.
  ghost predicate Cloned(m0: seq<Page>, cs0: seq<Chunk>, m1: seq<Page>, cs1: seq<Chunk>,
                         src: nat, dst: nat, lvl: nat, n: nat)
    requires lvl > 0
  {
    && |m0| == |m1|
    && Owned(m1, cs1, dst, lvl)
    && (forall p :: 0 <= p < |m0| && p != dst && !Free(cs0, p) ==> m1[p] == m0[p])
    && (forall p: nat :: Free(cs0, p) <==> Free(cs1, p) || (p in Foot(m1, dst, lvl) && p != dst))
    && (forall k: nat :: k < n && k < WORDS_PER_PAGE ==> KidOf(m1, dst, lvl, k) == KidOf(m0, src, lvl, k))
    && (forall k: nat :: k < n && k < WORDS_PER_PAGE && !User(Entry(m0, src, k)) ==>
          Entry(m1, dst, k) == Kept(m0, src, k))
    && (forall k: nat :: n <= k < WORDS_PER_PAGE ==> Entry(m1, dst, k) == ZERO_WORD)
  }

  // What a copied table shows where the source has no user entry: global entries verbatim, else nothing.
  ghost function Kept(m: seq<Page>, t: nat, k: nat): Word {
    if Valid(Entry(m, t, k)) then Entry(m, t, k) else ZERO_WORD
  }

  // One iteration of a copying loop: entry k of dst now leads to page c, below which hangs a copy of
  // what is below entry k of src.
  lemma CloneStep(m0: seq<Page>, cs0: seq<Chunk>, m: seq<Page>, cs: seq<Chunk>, m1: seq<Page>, cs1: seq<Chunk>,
                  src: nat, dst: nat, lvl: nat, k: nat)
    requires lvl > 0 && k < WORDS_PER_PAGE && Cloned(m0, cs0, m, cs, src, dst, lvl, k)
    requires |m| == |m1| && User(Entry(m0, src, k)) && User(Entry(m1, dst, k))
    requires forall p :: 0 <= p < |m| && p != dst && !Free(cs, p) ==> m1[p] == m[p]
    requires IsTable(m1, dst) && forall l: nat :: l < WORDS_PER_PAGE && l != k ==> Entry(m1, dst, l) == Entry(m, dst, l)
    requires EntryOk(m1, dst, lvl, k) && KidOf(m1, dst, lvl, k) == KidOf(m0, src, lvl, k)
    requires forall p :: p in Sub(m1, dst, lvl, k) ==> p != NULL && Free(cs, p) && !Free(cs1, p)
    requires forall p: nat :: Free(cs, p) <==> Free(cs1, p) || p in Sub(m1, dst, lvl, k)
    ensures Cloned(m0, cs0, m1, cs1, src, dst, lvl, k + 1)
  {
    assert !User(Entry(m, dst, k)) by { assert Entry(m, dst, k) == ZERO_WORD; assert !User(ZERO_WORD); }
    FootSplit(m, dst, lvl, k);
    assert Others(m, dst, lvl, k) == Foot(m, dst, lvl);
    FootInMemory(m, dst, lvl);
    Replace(m, m1, dst, lvl, k);
    assert Foot(m1, dst, lvl) == Foot(m, dst, lvl) + Sub(m1, dst, lvl, k);
  }

  lemma CloneSkip(m0: seq<Page>, cs0: seq<Chunk>, m: seq<Page>, cs: seq<Chunk>, src: nat, dst: nat, lvl: nat, k: nat)
    requires lvl > 0 && k < WORDS_PER_PAGE && Cloned(m0, cs0, m, cs, src, dst, lvl, k)
    requires !Valid(Entry(m0, src, k))
    ensures Cloned(m0, cs0, m, cs, src, dst, lvl, k + 1)
  {
    assert !User(ZERO_WORD);
  }

  // Both tables at the start of a copying loop.
  ghost predicate CloneReady(m: seq<Page>, cs: seq<Chunk>, src: nat, dst: nat, lvl: nat)
    requires lvl > 0
  {
    && Owned(m, cs, src, lvl)
    && dst < |m| && ZeroPage(m[dst]) && !Free(cs, dst) && dst != NULL
    && dst !in Foot(m, src, lvl)
  }

  lemma CloneStart(m: seq<Page>, cs: seq<Chunk>, src: nat, dst: nat, lvl: nat)
    requires lvl > 0 && CloneReady(m, cs, src, dst, lvl)
    ensures Cloned(m, cs, m, cs, src, dst, lvl, 0)
  {
    EmptyTable(m, dst, lvl);
  }

  // The source tree is still in place in the middle of a copying loop.
  lemma SourceKept(m0: seq<Page>, cs0: seq<Chunk>, m: seq<Page>, cs: seq<Chunk>, src: nat, dst: nat, lvl: nat, k: nat)
    requires lvl > 0 && k < WORDS_PER_PAGE
    requires CloneReady(m0, cs0, src, dst, lvl) && Cloned(m0, cs0, m, cs, src, dst, lvl, k)
    ensures IsTable(m, src) && Entry(m, src, k) == Entry(m0, src, k) && EntryOk(m0, src, lvl, k)
    ensures User(Entry(m0, src, k)) ==> var c := Entry(m0, src, k).ppn;
      Tree(m0, c, lvl - 1) && Foot(m0, c, lvl - 1) <= Foot(m0, src, lvl) && Agree(m0, m, Foot(m0, c, lvl - 1))
  {
    assert src in Foot(m0, src, lvl);
    assert EntryOk(m0, src, lvl, k);
    if User(Entry(m0, src, k)) {
      SubInFoot(m0, src, lvl, k);
      assert Sub(m0, src, lvl, k) == Foot(m0, Entry(m0, src, k).ppn, lvl - 1);
      FootInMemory(m0, src, lvl);
    }
  }


  // The leaf entry of a copied mapping, and the page copied below it.
  lemma CloneLeaf(m0: seq<Page>, cs0: seq<Chunk>, m: seq<Page>, cs: seq<Chunk>, m1: seq<Page>, cs1: seq<Chunk>,
                  src: nat, dst: nat, k: nat, pp: nat)
    requires k < WORDS_PER_PAGE && CloneReady(m0, cs0, src, dst, 1) && Cloned(m0, cs0, m, cs, src, dst, 1, k)
    requires User(Entry(m0, src, k))
    requires Adds(cs1, cs, pp, 1) && SameUsed(cs, m, m1) && NULL < pp < |m| && ZeroPage(m1[pp])
    ensures var e := Entry(m0, src, k);
      && IsTable(m1, dst) && e.ppn < |m1| && m1[e.ppn] == m0[e.ppn]
      && !Free(cs1, dst) && !Free(cs1, pp)
      && Cloned(m0, cs0, Put(m1, dst, k, LeafPte(pp, e.flags))[pp := m1[e.ppn]], cs1, src, dst, 1, k + 1)
  {
    var e := Entry(m0, src, k);
    SourceKept(m0, cs0, m, cs, src, dst, 1, k);
    assert e.ppn in Foot(m0, e.ppn, 0);
    assert dst in Foot(m, dst, 1);
    assert EntryOk(m0, src, 1, k);
    assert Free(cs, pp);
    var m2 := Put(m1, dst, k, LeafPte(pp, e.flags))[pp := m1[e.ppn]];
    LeafIsUser(pp, e);
    assert Entry(m2, dst, k) == LeafPte(pp, e.flags);
    assert Sub(m2, dst, 1, k) == {pp};
    assert ViewOf(m2, pp, 0) == ViewOf(m0, e.ppn, 0);
    CloneStep(m0, cs0, m, cs, m2, cs1, src, dst, 1, k);
  }

  // A fresh zeroed table c has just been hung below entry k of dst, with the table below entry k of src
  // still to be copied into it.
  lemma CloneEnter(m0: seq<Page>, cs0: seq<Chunk>, m: seq<Page>, cs: seq<Chunk>, m1: seq<Page>, cs1: seq<Chunk>,
                   src: nat, dst: nat, lvl: nat, k: nat, c: nat)
    requires lvl > 1 && k < WORDS_PER_PAGE
    requires CloneReady(m0, cs0, src, dst, lvl) && Cloned(m0, cs0, m, cs, src, dst, lvl, k)
    requires User(Entry(m0, src, k))
    requires Adds(cs1, cs, c, 1) && SameUsed(cs, m, m1) && NULL < c < |m| && ZeroPage(m1[c])
    ensures IsTable(m1, dst) && !Free(cs1, dst)
    ensures var b := Entry(m0, src, k).ppn;
      var m2 := Put(m1, dst, k, PtabPte(c, 0));
      CloneReady(m2, cs1, b, c, lvl - 1) && Agree(m0, m2, Foot(m0, b, lvl - 1))
  {
    var b := Entry(m0, src, k).ppn;
    SourceKept(m0, cs0, m, cs, src, dst, lvl, k);
    FootInMemory(m0, b, lvl - 1);
    assert dst in Foot(m, dst, lvl);
    assert Free(cs, c);
    var m2 := Put(m1, dst, k, PtabPte(c, 0));
    assert Agree(m0, m2, Foot(m0, b, lvl - 1));
    Frame(m0, m2, b, lvl - 1);
  }

  // ... and once it has been copied, entry k of dst is done.
  lemma CloneLeave(m0: seq<Page>, cs0: seq<Chunk>, m: seq<Page>, cs: seq<Chunk>, m1: seq<Page>, cs1: seq<Chunk>,
                   m3: seq<Page>, cs3: seq<Chunk>, src: nat, dst: nat, lvl: nat, k: nat, c: nat)
    requires lvl > 1 && k < WORDS_PER_PAGE
    requires CloneReady(m0, cs0, src, dst, lvl) && Cloned(m0, cs0, m, cs, src, dst, lvl, k)
    requires User(Entry(m0, src, k))
    requires Adds(cs1, cs, c, 1) && SameUsed(cs, m, m1) && NULL < c < |m| && IsTable(m1, dst)
    requires var b := Entry(m0, src, k).ppn;
      var m2 := Put(m1, dst, k, PtabPte(c, 0));
      && CloneReady(m2, cs1, b, c, lvl - 1) && Agree(m0, m2, Foot(m0, b, lvl - 1))
      && Cloned(m2, cs1, m3, cs3, b, c, lvl - 1, WORDS_PER_PAGE)
    ensures Cloned(m0, cs0, m3, cs3, src, dst, lvl, k + 1)
  {
    var b := Entry(m0, src, k).ppn;
    var m2 := Put(m1, dst, k, PtabPte(c, 0));
    SourceKept(m0, cs0, m, cs, src, dst, lvl, k);
    Frame(m0, m2, b, lvl - 1);
    SameViews(m2, b, m3, c, lvl - 1);
    assert dst in Foot(m, dst, lvl) && Free(cs, c);
    assert PtabPte(c, 0).flags == PTE_V && User(PtabPte(c, 0));
    assert m3[dst] == m2[dst];
    assert Entry(m3, dst, k) == PtabPte(c, 0);
    assert Sub(m3, dst, lvl, k) == Foot(m3, c, lvl - 1);
    assert c in Foot(m3, c, lvl - 1);
    CloneStep(m0, cs0, m, cs, m3, cs3, src, dst, lvl, k);
  }

  lemma SameViews(m0: seq<Page>, src: nat, m1: seq<Page>, dst: nat, lvl: nat)
    requires lvl > 0
    requires forall k: nat :: k < WORDS_PER_PAGE ==> KidOf(m1, dst, lvl, k) == KidOf(m0, src, lvl, k)
    ensures ViewOf(m1, dst, lvl) == ViewOf(m0, src, lvl)
  {
  }

  // The root table also takes over global entries, word for word.
  lemma CloneGlobal(m0: seq<Page>, cs0: seq<Chunk>, m: seq<Page>, cs: seq<Chunk>, src: nat, dst: nat, k: nat)
    requires k < WORDS_PER_PAGE && Cloned(m0, cs0, m, cs, src, dst, ROOT, k)
    requires Valid(Entry(m0, src, k)) && Global(Entry(m0, src, k))
    ensures IsTable(m, dst) && !Free(cs, dst)
    ensures Cloned(m0, cs0, Put(m, dst, k, Entry(m0, src, k)), cs, src, dst, ROOT, k + 1)
  {
    assert dst in Foot(m, dst, ROOT);
    PutIdle(m, dst, ROOT, k, Entry(m0, src, k));
  }

  // Exchanging one entry that owns nothing for another changes neither the tree nor what it owns.
  lemma PutIdle(m: seq<Page>, t: nat, lvl: nat, k: nat, e: Word)
    requires lvl > 0 && k < WORDS_PER_PAGE && Tree(m, t, lvl) && !User(Entry(m, t, k))
    requires !User(e) && (lvl == ROOT || !Valid(e))
    ensures Tree(Put(m, t, k, e), t, lvl) && Foot(Put(m, t, k, e), t, lvl) == Foot(m, t, lvl)
    ensures forall l: nat :: l < WORDS_PER_PAGE && l != k ==> KidOf(Put(m, t, k, e), t, lvl, l) == KidOf(m, t, lvl, l)
    ensures forall l: nat :: l < WORDS_PER_PAGE ==> Entry(Put(m, t, k, e), t, l) == if l == k then e else Entry(m, t, l)
  {
    var m1 := Put(m, t, k, e);
    assert Sub(m1, t, lvl, k) == {} && Sub(m, t, lvl, k) == {};
    FootSplit(m, t, lvl, k);
    FootInMemory(m, t, lvl);
    Replace(m, m1, t, lvl, k);
  }

  // After a finished copy the source space is untouched, the copy shows the same pages, and the two
  // own no page in common.
  lemma CloneDone(m0: seq<Page>, cs0: seq<Chunk>, m1: seq<Page>, cs1: seq<Chunk>, src: nat, dst: nat)
    requires CloneReady(m0, cs0, src, dst, ROOT)
    requires Cloned(m0, cs0, m1, cs1, src, dst, ROOT, WORDS_PER_PAGE)
    ensures Owned(m1, cs1, src, ROOT) && ViewOf(m1, src, ROOT) == ViewOf(m0, src, ROOT)
    ensures ViewOf(m1, dst, ROOT) == ViewOf(m0, src, ROOT)
    ensures Foot(m1, src, ROOT) == Foot(m0, src, ROOT) && Foot(m1, dst, ROOT) !! Foot(m1, src, ROOT)
    ensures forall k: nat :: Entry(m1, src, k) == Entry(m0, src, k)
  {
    FootInMemory(m0, src, ROOT);
    assert Agree(m0, m1, Foot(m0, src, ROOT));
    Frame(m0, m1, src, ROOT);
    SameViews(m0, src, m1, dst, ROOT);
    assert src in Foot(m0, src, ROOT);
  }

  // State (m1, cs1) is state (m0, cs0) after the first n user entries of table t were unmapped and
  // every page they owned was put on the free list.
  ghost predicate Reset(m0: seq<Page>, cs0: seq<Chunk>, m1: seq<Page>, cs1: seq<Chunk>, t: nat, lvl: nat, n: nat)
    requires lvl > 0
  {
    && |m0| == |m1|
    && Owned(m1, cs1, t, lvl) && Foot(m1, t, lvl) <= Foot(m0, t, lvl)
    && (forall p :: 0 <= p < |m0| && p !in Foot(m0, t, lvl) && !Free(cs0, p) ==> m1[p] == m0[p])
    && (forall p: nat :: Free(cs1, p) <==> Free(cs0, p) || (p in Foot(m0, t, lvl) && p !in Foot(m1, t, lvl)))
    && (forall k: nat :: k < n && k < WORDS_PER_PAGE ==> Entry(m1, t, k) == Unmapped(Entry(m0, t, k)))
    && (forall k: nat :: n <= k < WORDS_PER_PAGE ==> Entry(m1, t, k) == Entry(m0, t, k))
  }

  function Unmapped(e: Word): Word {
    if User(e) then e.(flags := e.flags & !PTE_V) else e
  }

  lemma UnmappedIsInvalid(e: Word)
    ensures !User(Unmapped(e)) && (User(e) ==> !Valid(Unmapped(e)))
  {
  }

  lemma ResetStart(m: seq<Page>, cs: seq<Chunk>, t: nat, lvl: nat)
    requires lvl > 0 && Owned(m, cs, t, lvl)
    ensures Reset(m, cs, m, cs, t, lvl, 0)
  {
  }

  // One iteration of a resetting loop: the pages below entry k went to the free list, then the entry
  // was cleared.
  lemma ResetStep(m0: seq<Page>, cs0: seq<Chunk>, m: seq<Page>, cs: seq<Chunk>, m1: seq<Page>, cs1: seq<Chunk>,
                  t: nat, lvl: nat, k: nat)
    requires lvl > 0 && k < WORDS_PER_PAGE && Reset(m0, cs0, m, cs, t, lvl, k) && User(Entry(m, t, k))
    requires |m1| == |m| && IsTable(m1, t)
    requires forall l: nat :: l < WORDS_PER_PAGE && l != k ==> Entry(m1, t, l) == Entry(m, t, l)
    requires Entry(m1, t, k) == Unmapped(Entry(m, t, k))
    requires forall p :: 0 <= p < |m| && p != t && p !in Sub(m, t, lvl, k) && !Free(cs, p) ==> m1[p] == m[p]
    requires forall p: nat :: Free(cs1, p) <==> Free(cs, p) || p in Sub(m, t, lvl, k)
    ensures Reset(m0, cs0, m1, cs1, t, lvl, k + 1)
  {
    UnmappedIsInvalid(Entry(m, t, k));
    FootSplit(m, t, lvl, k);
    FootInMemory(m, t, lvl);
    Replace(m, m1, t, lvl, k);
  }

  lemma ResetSkip(m0: seq<Page>, cs0: seq<Chunk>, m: seq<Page>, cs: seq<Chunk>, t: nat, lvl: nat, k: nat)
    requires lvl > 0 && k < WORDS_PER_PAGE && Reset(m0, cs0, m, cs, t, lvl, k) && !User(Entry(m, t, k))
    ensures Reset(m0, cs0, m, cs, t, lvl, k + 1)
  {
  }

  // What a loop finds below entry k: a tree in use, with the table itself not part of it.
  lemma ResetEnter(m: seq<Page>, cs: seq<Chunk>, t: nat, lvl: nat, k: nat)
    requires lvl > 0 && k < WORDS_PER_PAGE && Owned(m, cs, t, lvl) && User(Entry(m, t, k))
    ensures IsTable(m, t) && t !in Sub(m, t, lvl, k) && !Free(cs, t)
    ensures Owned(m, cs, Entry(m, t, k).ppn, lvl - 1)
    ensures Sub(m, t, lvl, k) == Foot(m, Entry(m, t, k).ppn, lvl - 1)
    ensures Entry(m, t, k).ppn < |m|
  {
    assert t in Foot(m, t, lvl);
    assert EntryOk(m, t, lvl, k);
    SubInFoot(m, t, lvl, k);
  }

  // Resetting what is below entry k leaves the table itself alone.
  lemma ResetBelow(m: seq<Page>, cs: seq<Chunk>, m1: seq<Page>, cs1: seq<Chunk>, t: nat, lvl: nat, k: nat)
    requires lvl > 1 && k < WORDS_PER_PAGE && Owned(m, cs, t, lvl) && User(Entry(m, t, k))
    requires Reset(m, cs, m1, cs1, Entry(m, t, k).ppn, lvl - 1, WORDS_PER_PAGE)
    ensures IsTable(m1, t) && Entry(m1, t, k) == Entry(m, t, k)
    ensures var c := Entry(m, t, k).ppn; NULL < c < |m1| && !Free(cs1, c)
  {
    ResetEnter(m, cs, t, lvl, k);
    var c := Entry(m, t, k).ppn;
    assert c in Foot(m1, c, lvl - 1);
    FootInMemory(m1, c, lvl - 1);
  }

  // A table whose entries have all been cleared owns only itself, so freeing it frees all that is left.
  lemma ResetLeave(m0: seq<Page>, cs0: seq<Chunk>, m: seq<Page>, cs: seq<Chunk>, m1: seq<Page>, cs1: seq<Chunk>,
                   m2: seq<Page>, cs2: seq<Chunk>, t: nat, lvl: nat, k: nat)
    requires lvl > 1 && k < WORDS_PER_PAGE && Reset(m0, cs0, m, cs, t, lvl, k) && User(Entry(m, t, k))
    requires Reset(m, cs, m1, cs1, Entry(m, t, k).ppn, lvl - 1, WORDS_PER_PAGE)
    requires Adds(cs1, cs2, Entry(m, t, k).ppn, 1) && SameUsed(cs2, m1, m2)
    ensures IsTable(m2, t) && !Free(cs2, t) && Entry(m2, t, k) == Entry(m, t, k)
    ensures Reset(m0, cs0, Put(m2, t, k, Unmapped(Entry(m, t, k))), cs2, t, lvl, k + 1)
  {
    var c := Entry(m, t, k).ppn;
    ResetEnter(m, cs, t, lvl, k);
    ClearedTable(m, m1, c, lvl - 1);
    var m3 := Put(m2, t, k, Unmapped(Entry(m, t, k)));
    assert m2[t] == m[t];
    ResetStep(m0, cs0, m, cs, m3, cs2, t, lvl, k);
  }

  lemma ClearedTable(m0: seq<Page>, m1: seq<Page>, t: nat, lvl: nat)
    requires lvl > 0 && forall k: nat :: k < WORDS_PER_PAGE ==> Entry(m1, t, k) == Unmapped(Entry(m0, t, k))
    ensures Foot(m1, t, lvl) == {t}
  {
    forall k: nat | k < WORDS_PER_PAGE ensures Sub(m1, t, lvl, k) == {} {
      UnmappedIsInvalid(Entry(m0, t, k));
    }
  }

  lemma LeafIsUser(pp: nat, e: Word)
    requires User(e) && e.flags | PTE_A_D_V == e.flags
    ensures User(LeafPte(pp, e.flags)) && LeafPte(pp, e.flags).flags == e.flags
  {
  }

  class Mmu {
    const phys: PhysMem
    var activePt2: nat

    ghost predicate Valid()
      reads this, phys
    {
      && phys.Valid()
      && Owned(phys.mem, phys.chunks, activePt2, ROOT)
    }

    // the pages of the active space
    ghost function Owns(): set<nat>
      reads this, phys
    {
      Foot(phys.mem, activePt2, ROOT)
    }

    constructor (phys: PhysMem, root: nat)
      requires phys.Valid() && Owned(phys.mem, phys.chunks, root, ROOT)
      ensures Valid() && this.phys == phys && activePt2 == root
    {
      this.phys := phys;
      activePt2 := root;
    }

    // innermost loop of clone_active_mspace: the leaves of one level-0 table
    method CloneLeaves(oldPt0: nat, newPt0: nat) returns (ok: bool)
      requires phys.Valid() && CloneReady(phys.mem, phys.chunks, oldPt0, newPt0, 1)
      modifies phys
      ensures !ok ==> NoneFree(phys.chunks)
      ensures ok ==> phys.Valid()
      ensures ok ==> Cloned(old(phys.mem), old(phys.chunks), phys.mem, phys.chunks, oldPt0, newPt0, 1, WORDS_PER_PAGE)
    {
      ghost var m0, cs0 := phys.mem, phys.chunks;
      CloneStart(m0, cs0, oldPt0, newPt0, 1);
      for k := 0 to WORDS_PER_PAGE
        invariant phys.Valid() && Cloned(m0, cs0, phys.mem, phys.chunks, oldPt0, newPt0, 1, k)
      {
        ghost var m, cs := phys.mem, phys.chunks;
        SourceKept(m0, cs0, m, cs, oldPt0, newPt0, 1, k);
        var oldPte0 := phys.mem[oldPt0].w[k];
        if User(oldPte0) {
          var r := phys.AllocPhysPages(1);
          if r.Panic? { PanicMeansNoneFree(phys.chunks); return false; }
          CloneLeaf(m0, cs0, m, cs, phys.mem, phys.chunks, oldPt0, newPt0, k, r.pp);
          phys.Store(newPt0, Words(phys.mem[newPt0].w[k := LeafPte(r.pp, oldPte0.flags)]));
          phys.Store(r.pp, phys.mem[oldPte0.ppn]);
        } else {
          CloneSkip(m0, cs0, m, cs, oldPt0, newPt0, 1, k);
        }
      }
      ok := true;
    }

    // hangs a new, empty table below entry k of dst
    method HangTable(ghost src: nat, dst: nat, k: nat, ghost lvl: nat, ghost m0: seq<Page>, ghost cs0: seq<Chunk>)
      returns (ok: bool, c: nat, ghost m1: seq<Page>)
      requires phys.Valid() && 1 < lvl && k < WORDS_PER_PAGE && CloneReady(m0, cs0, src, dst, lvl)
      requires Cloned(m0, cs0, phys.mem, phys.chunks, src, dst, lvl, k) && User(Entry(m0, src, k))
      modifies phys
      ensures !ok ==> NoneFree(phys.chunks)
      ensures ok ==> phys.Valid() && IsTable(m1, dst) && NULL < c < |m1| && phys.mem == Put(m1, dst, k, PtabPte(c, 0))
      ensures ok ==> Adds(phys.chunks, old(phys.chunks), c, 1) && SameUsed(old(phys.chunks), old(phys.mem), m1)
      ensures ok ==> CloneReady(phys.mem, phys.chunks, Entry(m0, src, k).ppn, c, lvl - 1)
      ensures ok ==> Agree(m0, phys.mem, Foot(m0, Entry(m0, src, k).ppn, lvl - 1))
    {
      ghost var m, cs := phys.mem, phys.chunks;
      ok, c, m1 := false, NULL, m0;
      var r := phys.AllocPhysPages(1);
      if r.Panic? { PanicMeansNoneFree(phys.chunks); return; }
      ok, c, m1 := true, r.pp, phys.mem;
      CloneEnter(m0, cs0, m, cs, m1, phys.chunks, src, dst, lvl, k, c);
      phys.Store(dst, Words(phys.mem[dst].w[k := PtabPte(c, 0)]));
    }

    // middle loop of clone_active_mspace: the level-0 tables below one level-1 table
    method CloneTables(oldPt1: nat, newPt1: nat) returns (ok: bool)
      requires phys.Valid() && CloneReady(phys.mem, phys.chunks, oldPt1, newPt1, 2)
      modifies phys
      ensures !ok ==> NoneFree(phys.chunks)
      ensures ok ==> phys.Valid()
      ensures ok ==> Cloned(old(phys.mem), old(phys.chunks), phys.mem, phys.chunks, oldPt1, newPt1, 2, WORDS_PER_PAGE)
    {
      ghost var m0, cs0 := phys.mem, phys.chunks;
      CloneStart(m0, cs0, oldPt1, newPt1, 2);
      for j := 0 to WORDS_PER_PAGE
        invariant phys.Valid() && Cloned(m0, cs0, phys.mem, phys.chunks, oldPt1, newPt1, 2, j)
      {
        ghost var m, cs := phys.mem, phys.chunks;
        SourceKept(m0, cs0, m, cs, oldPt1, newPt1, 2, j);
        var oldPte1 := phys.mem[oldPt1].w[j];
        if User(oldPte1) {
          var c;
          ghost var m1;
          ok, c, m1 := HangTable(oldPt1, newPt1, j, 2, m0, cs0);
          if !ok { return false; }
          ghost var cs1 := phys.chunks;
          ok := CloneLeaves(oldPte1.ppn, c);
          if !ok { return false; }
          CloneLeave(m0, cs0, m, cs, m1, cs1, phys.mem, phys.chunks, oldPt1, newPt1, 2, j, c);
        } else {
          CloneSkip(m0, cs0, m, cs, oldPt1, newPt1, 2, j);
        }
      }
      ok := true;
    }

    method CloneActiveMspace() returns (ok: bool, newPt2: nat)
      requires Valid()
      modifies phys
      ensures ok ==> Valid()
      // both spaces show the same pages, flags and contents, and share no page
      ensures ok ==> ViewOf(phys.mem, activePt2, ROOT) == old(ViewOf(phys.mem, activePt2, ROOT))
      ensures ok ==> ViewOf(phys.mem, newPt2, ROOT) == old(ViewOf(phys.mem, activePt2, ROOT))
      ensures ok ==> Foot(phys.mem, activePt2, ROOT) == old(Foot(phys.mem, activePt2, ROOT))
      ensures ok ==> Owned(phys.mem, phys.chunks, newPt2, ROOT)
      ensures ok ==> Foot(phys.mem, newPt2, ROOT) !! Foot(phys.mem, activePt2, ROOT)
      ensures ok ==> SameGlobals(phys.mem, activePt2, newPt2)
      // every page taken from the free list belongs to the new space
      ensures ok ==>
        forall p: nat :: old(Free(phys.chunks, p)) <==> Free(phys.chunks, p) || p in Foot(phys.mem, newPt2, ROOT)
      ensures ok ==> |phys.mem| == |old(phys.mem)|
      // the copy fails only by running out of pages
      ensures !ok ==> NoneFree(phys.chunks)
    {
      ok, newPt2 := false, NULL;
      ghost var before, csBefore := phys.mem, phys.chunks;
      var root := phys.AllocPhysPages(1);
      if root.Panic? { PanicMeansNoneFree(phys.chunks); return; }
      newPt2 := root.pp;
      ghost var m0, cs0 := phys.mem, phys.chunks;
      RootReady(before, csBefore, m0, cs0, activePt2, newPt2);
      CloneStart(m0, cs0, activePt2, newPt2, ROOT);
      ok := CloneEntries(activePt2, newPt2);
      if ok { CloneDone(m0, cs0, phys.mem, phys.chunks, activePt2, newPt2); }
    }

    method CopyGlobal(ghost oldPt2: nat, newPt2: nat, i: nat, e: Word, ghost m0: seq<Page>, ghost cs0: seq<Chunk>)
      requires phys.Valid() && i < WORDS_PER_PAGE && e == Entry(m0, oldPt2, i)
      requires Cloned(m0, cs0, phys.mem, phys.chunks, oldPt2, newPt2, ROOT, i)
      requires PageTrees.Valid(e) && Global(e)
      modifies phys
      ensures phys.Valid() && Cloned(m0, cs0, phys.mem, phys.chunks, oldPt2, newPt2, ROOT, i + 1)
    {
      CloneGlobal(m0, cs0, phys.mem, phys.chunks, oldPt2, newPt2, i);
      phys.Store(newPt2, Words(phys.mem[newPt2].w[i := e]));
    }

    // one round of the outer loop, for a non-global entry
    method CloneBranch(ghost oldPt2: nat, newPt2: nat, i: nat, oldPt1: nat, ghost m0: seq<Page>, ghost cs0: seq<Chunk>)
      returns (ok: bool)
      requires phys.Valid() && i < WORDS_PER_PAGE && CloneReady(m0, cs0, oldPt2, newPt2, ROOT)
      requires Cloned(m0, cs0, phys.mem, phys.chunks, oldPt2, newPt2, ROOT, i)
      requires User(Entry(m0, oldPt2, i)) && oldPt1 == Entry(m0, oldPt2, i).ppn
      modifies phys
      ensures !ok ==> NoneFree(phys.chunks)
      ensures ok ==> phys.Valid() && Cloned(m0, cs0, phys.mem, phys.chunks, oldPt2, newPt2, ROOT, i + 1)
    {
      ghost var m, cs := phys.mem, phys.chunks;
      var c;
      ghost var m1;
      ok, c, m1 := HangTable(oldPt2, newPt2, i, ROOT, m0, cs0);
      if !ok { return; }
      ghost var cs1 := phys.chunks;
      ok := CloneTables(oldPt1, c);
      if ok { CloneLeave(m0, cs0, m, cs, m1, cs1, phys.mem, phys.chunks, oldPt2, newPt2, ROOT, i, c); }
    }

    // outer loop of clone_active_mspace
    method CloneEntries(oldPt2: nat, newPt2: nat) returns (ok: bool)
      requires phys.Valid() && CloneReady(phys.mem, phys.chunks, oldPt2, newPt2, ROOT)
      modifies phys
      ensures !ok ==> NoneFree(phys.chunks)
      ensures ok ==> phys.Valid()
      ensures ok ==>
        Cloned(old(phys.mem), old(phys.chunks), phys.mem, phys.chunks, oldPt2, newPt2, ROOT, WORDS_PER_PAGE)
    {
      ghost var m0, cs0 := phys.mem, phys.chunks;
      CloneStart(m0, cs0, oldPt2, newPt2, ROOT);
      for i := 0 to WORDS_PER_PAGE
        invariant phys.Valid() && Cloned(m0, cs0, phys.mem, phys.chunks, oldPt2, newPt2, ROOT, i)
      {
        ghost var m, cs := phys.mem, phys.chunks;
        SourceKept(m0, cs0, m, cs, oldPt2, newPt2, ROOT, i);
        var oldPte2 := phys.mem[oldPt2].w[i];
        if User(oldPte2) {
          ok := CloneBranch(oldPt2, newPt2, i, oldPte2.ppn, m0, cs0);
          if !ok { return false; }
        } else if Global(oldPte2) && PageTrees.Valid(oldPte2) {
          CopyGlobal(oldPt2, newPt2, i, oldPte2, m0, cs0);
        } else {
          assert !PageTrees.Valid(Entry(m0, oldPt2, i));
          CloneSkip(m0, cs0, m, cs, oldPt2, newPt2, ROOT, i);
        }
      }
      ok := true;
    }

    // frees a mapped page, then clears the valid bit of its entry
    method FreeLeaf(pt0: nat, k: nat, ghost m0: seq<Page>, ghost cs0: seq<Chunk>)
      requires phys.Valid() && k < WORDS_PER_PAGE && Reset(m0, cs0, phys.mem, phys.chunks, pt0, 1, k)
      requires User(Entry(phys.mem, pt0, k))
      modifies phys
      ensures phys.Valid() && Reset(m0, cs0, phys.mem, phys.chunks, pt0, 1, k + 1)
    {
      ghost var m, cs := phys.mem, phys.chunks;
      ResetEnter(m, cs, pt0, 1, k);
      var pte := phys.mem[pt0].w[k];
      assert pte.ppn in Foot(m, pte.ppn, 0);
      phys.FreePhysPages(pte.ppn, 1);
      phys.Store(pt0, Words(phys.mem[pt0].w[k := Unmapped(pte)]));
      ResetStep(m0, cs0, m, cs, phys.mem, phys.chunks, pt0, 1, k);
    }

    // frees a table whose entries have been reset, then clears the valid bit of the entry above it
    method FreeTable(t: nat, k: nat, ghost lvl: nat, ghost m0: seq<Page>, ghost cs0: seq<Chunk>,
                     ghost m: seq<Page>, ghost cs: seq<Chunk>)
      requires phys.Valid() && 1 < lvl && k < WORDS_PER_PAGE
      requires Reset(m0, cs0, m, cs, t, lvl, k) && User(Entry(m, t, k))
      requires Reset(m, cs, phys.mem, phys.chunks, Entry(m, t, k).ppn, lvl - 1, WORDS_PER_PAGE)
      modifies phys
      ensures phys.Valid() && Reset(m0, cs0, phys.mem, phys.chunks, t, lvl, k + 1)
    {
      ghost var m1, cs1 := phys.mem, phys.chunks;
      ResetBelow(m, cs, m1, cs1, t, lvl, k);
      var pte := phys.mem[t].w[k];
      phys.FreePhysPages(pte.ppn, 1);
      ResetLeave(m0, cs0, m, cs, m1, cs1, phys.mem, phys.chunks, t, lvl, k);
      phys.Store(t, Words(phys.mem[t].w[k := Unmapped(pte)]));
    }

    // innermost loop of reset_active_mspace
    method ResetLeaves(pt0: nat)
      requires phys.Valid() && Owned(phys.mem, phys.chunks, pt0, 1)
      modifies phys
      ensures phys.Valid() && Reset(old(phys.mem), old(phys.chunks), phys.mem, phys.chunks, pt0, 1, WORDS_PER_PAGE)
    {
      ghost var m0, cs0 := phys.mem, phys.chunks;
      ResetStart(m0, cs0, pt0, 1);
      for k := 0 to WORDS_PER_PAGE
        invariant phys.Valid() && Reset(m0, cs0, phys.mem, phys.chunks, pt0, 1, k)
      {
        ghost var m, cs := phys.mem, phys.chunks;
        var pte0 := phys.mem[pt0].w[k];
        if User(pte0) {
          FreeLeaf(pt0, k, m0, cs0);
        } else {
          ResetSkip(m0, cs0, m, cs, pt0, 1, k);
        }
      }
    }

    // middle loop of reset_active_mspace
    method ResetTables(pt1: nat)
      requires phys.Valid() && Owned(phys.mem, phys.chunks, pt1, 2)
      modifies phys
      ensures phys.Valid() && Reset(old(phys.mem), old(phys.chunks), phys.mem, phys.chunks, pt1, 2, WORDS_PER_PAGE)
    {
      ghost var m0, cs0 := phys.mem, phys.chunks;
      ResetStart(m0, cs0, pt1, 2);
      for j := 0 to WORDS_PER_PAGE
        invariant phys.Valid() && Reset(m0, cs0, phys.mem, phys.chunks, pt1, 2, j)
      {
        ghost var m, cs := phys.mem, phys.chunks;
        var pte1 := phys.mem[pt1].w[j];
        if User(pte1) {
          ResetEnter(m, cs, pt1, 2, j);
          ResetLeaves(pte1.ppn);
          FreeTable(pt1, j, 2, m0, cs0, m, cs);
        } else {
          ResetSkip(m0, cs0, m, cs, pt1, 2, j);
        }
      }
    }

    method ResetActiveMspace()
      requires Valid()
      modifies phys
      ensures Valid()
      ensures Reset(old(phys.mem), old(phys.chunks), phys.mem, phys.chunks, activePt2, ROOT, WORDS_PER_PAGE)
      ensures Foot(phys.mem, activePt2, ROOT) == {activePt2}
    {
      ghost var m0, cs0 := phys.mem, phys.chunks;
      ResetStart(m0, cs0, activePt2, ROOT);
      for i := 0 to WORDS_PER_PAGE
        invariant phys.Valid() && Reset(m0, cs0, phys.mem, phys.chunks, activePt2, ROOT, i)
      {
        ghost var m, cs := phys.mem, phys.chunks;
        var pte2 := phys.mem[activePt2].w[i];
        if User(pte2) {
          ResetEnter(m, cs, activePt2, ROOT, i);
          ResetTables(pte2.ppn);
          FreeTable(activePt2, i, ROOT, m0, cs0, m, cs);
        } else {
          ResetSkip(m0, cs0, m, cs, activePt2, ROOT, i);
        }
      }
      ClearedTable(m0, phys.mem, activePt2, ROOT);
    }
  }

  ghost predicate SameGlobals(m: seq<Page>, src: nat, dst: nat) {
    forall k: nat :: k < WORDS_PER_PAGE && !User(Entry(m, src, k)) ==> Entry(m, dst, k) == Kept(m, src, k)
  }

  lemma RootReady(m0: seq<Page>, cs0: seq<Chunk>, m1: seq<Page>, cs1: seq<Chunk>, src: nat, dst: nat)
    requires Owned(m0, cs0, src, ROOT)
    requires Adds(cs1, cs0, dst, 1) && SameUsed(cs0, m0, m1) && NULL < dst < |m0| && ZeroPage(m1[dst])
    ensures CloneReady(m1, cs1, src, dst, ROOT)
    ensures ViewOf(m1, src, ROOT) == ViewOf(m0, src, ROOT) && Foot(m1, src, ROOT) == Foot(m0, src, ROOT)
  {
    assert Free(cs0, dst);
    FootInMemory(m0, src, ROOT);
    Frame(m0, m1, src, ROOT);
  }

  // Whatever happens to the pages of one space and to free pages, another space keeps translating to the same
  // contents.
  lemma SpacesAreIndependent(m0: seq<Page>, cs0: seq<Chunk>, m1: seq<Page>, mine: nat, other: nat)
    requires Owned(m0, cs0, mine, ROOT) && |m1| == |m0|
    requires Foot(m0, mine, ROOT) !! Foot(m0, other, ROOT)
    requires forall p :: 0 <= p < |m0| && p !in Foot(m0, other, ROOT) && !Free(cs0, p) ==> m1[p] == m0[p]
    ensures Tree(m1, mine, ROOT) && Foot(m1, mine, ROOT) == Foot(m0, mine, ROOT)
    ensures ViewOf(m1, mine, ROOT) == ViewOf(m0, mine, ROOT)
  {
    FootInMemory(m0, mine, ROOT);
    Frame(m0, m1, mine, ROOT);
  }

  // Resetting one space leaves another one in place.
  lemma ResetKeepsOthers(m0: seq<Page>, cs0: seq<Chunk>, m1: seq<Page>, cs1: seq<Chunk>, mine: nat, other: nat)
    requires Owned(m0, cs0, mine, ROOT) && Reset(m0, cs0, m1, cs1, other, ROOT, WORDS_PER_PAGE)
    requires Foot(m0, mine, ROOT) !! Foot(m0, other, ROOT)
    ensures Owned(m1, cs1, mine, ROOT) && Foot(m1, mine, ROOT) == Foot(m0, mine, ROOT)
    ensures ViewOf(m1, mine, ROOT) == ViewOf(m0, mine, ROOT)
  {
    SpacesAreIndependent(m0, cs0, m1, mine, other);
  }

  // Clone the active space, switch to the clone and reset it: the original space is as before, and all
  // that is missing from the free list is the root page of the clone. Only the clone can fail.
  method CloneThenReset(mmu: Mmu) returns (ok: bool, original: nat)
    requires mmu.Valid()
    modifies mmu, mmu.phys
    ensures original == old(mmu.activePt2)
    ensures !ok ==> mmu.activePt2 == original && NoneFree(mmu.phys.chunks)
    ensures ok ==> mmu.phys.Valid()
    ensures ok ==> forall p: nat :: Free(mmu.phys.chunks, p) <==> old(Free(mmu.phys.chunks, p)) && p != mmu.activePt2
    ensures ok ==> Free(old(mmu.phys.chunks), mmu.activePt2)
    ensures ok ==> Owned(mmu.phys.mem, mmu.phys.chunks, original, ROOT)
    ensures ok ==> ViewOf(mmu.phys.mem, original, ROOT) == old(ViewOf(mmu.phys.mem, mmu.activePt2, ROOT))
  {
    original := mmu.activePt2;
    var copy;
    ok, copy := mmu.CloneActiveMspace();
    if !ok { return; }
    mmu.activePt2 := copy;
    ghost var m, cs := mmu.phys.mem, mmu.phys.chunks;
    mmu.ResetActiveMspace();
    ResetKeepsOthers(m, cs, mmu.phys.mem, mmu.phys.chunks, original, copy);
    assert copy in Foot(m, copy, ROOT);
  }
}
