// Mapping pages into the active address space (sys/memory.c).

module PageMaps {
  import opened FreeLists
  import opened FreePages
  import opened PageTrees
  import opened PageWalks
  import opened PageTables

  // The tables of a space are in order and in use.
  ghost predicate Standing(m: seq<Page>, cs: seq<Chunk>, root: nat) {
    && Skeleton(m, root)
    && (forall p: nat :: Tab(m, root, p) ==> IsTable(m, p) && p != NULL && !Free(cs, p))
  }

  lemma OwnedStands(m: seq<Page>, cs: seq<Chunk>, root: nat)
    requires Owned(m, cs, root, ROOT)
    ensures Standing(m, cs, root) && forall p: nat :: Tab(m, root, p) ==> p in Foot(m, root, ROOT)
  {
    FootInMemory(m, root, ROOT);
    TreeHasSkeleton(m, root);
  }

  // From m0 to m1 exactly the pages that left the free list, other than those of run, became tables of the
  // space; only its tables were written to, and pages that had been free.
  ghost predicate TablesGrown(m0: seq<Page>, cs0: seq<Chunk>, m1: seq<Page>, cs1: seq<Chunk>, root: nat,
                              run: set<nat>)
  {
    && |m0| == |m1|
    && (forall p: nat :: Free(cs1, p) ==> Free(cs0, p))
    && (forall p: nat :: Tab(m1, root, p) <==> Tab(m0, root, p) || (Free(cs0, p) && !Free(cs1, p) && p !in run))
    && (forall p: nat :: p < |m0| && !Free(cs0, p) && !Tab(m0, root, p) ==> m1[p] == m0[p])
  }

  lemma GrownTwice(m0: seq<Page>, cs0: seq<Chunk>, m1: seq<Page>, cs1: seq<Chunk>, m2: seq<Page>, cs2: seq<Chunk>,
                   root: nat)
    requires TablesGrown(m0, cs0, m1, cs1, root, {}) && TablesGrown(m1, cs1, m2, cs2, root, {})
    ensures TablesGrown(m0, cs0, m2, cs2, root, {})
  {
  }

  // A space that owned the pages f0 and owns f1 now has gained only pages that were free, and pages of run.
  ghost predicate Gained(f0: set<nat>, cs0: seq<Chunk>, f1: set<nat>, run: set<nat>) {
    forall p: nat :: p in f1 ==> p in f0 || Free(cs0, p) || p in run
  }

  // An empty table c, taken from the free list, now hangs below entry k of t.
  ghost predicate Hung(m0: seq<Page>, cs0: seq<Chunk>, m1: seq<Page>, cs1: seq<Chunk>, t: nat, k: nat, c: nat) {
    && |m0| == |m1| && NULL < c < |m1| && ZeroPage(m1[c]) && IsTable(m1, t)
    && Adds(cs1, cs0, c, 1) && Hooked(m0, m1, t, k, c)
    && (forall p :: 0 <= p < |m0| && p != t && !Free(cs0, p) ==> m1[p] == m0[p])
  }

  // The first two thirds of getLeaf: the table below entry k of t exists, or is created empty.
  method EnsureTable(mmu: Mmu, t: nat, k: nat, flags: bv8) returns (ok: bool, ghost c: nat)
    requires mmu.phys.Valid() && k < WORDS_PER_PAGE && flags & PTE_G == 0
    requires IsTable(mmu.phys.mem, t) && !Free(mmu.phys.chunks, t)
    modifies mmu.phys
    ensures !ok ==> !Valid(Entry(old(mmu.phys.mem), t, k)) && NoneFree(mmu.phys.chunks)
    ensures var m0, m1 := old(mmu.phys.mem), mmu.phys.mem;
      var cs0, cs1 := old(mmu.phys.chunks), mmu.phys.chunks;
      ok ==>
        && mmu.phys.Valid()
        && (Valid(Entry(m0, t, k)) ==> m1 == m0 && cs1 == cs0)
        && (!Valid(Entry(m0, t, k)) ==> Hung(m0, cs0, m1, cs1, t, k, c))
  {
    ok, c := true, NULL;
    if !Valid(mmu.phys.mem[t].w[k]) {
      var r := mmu.phys.AllocPhysPages(1);
      if r.Panic? { PanicMeansNoneFree(mmu.phys.chunks); return false, c; }
      c := r.pp;
      assert Free(old(mmu.phys.chunks), c);
      mmu.phys.Store(t, Words(mmu.phys.mem[t].w[k := PtabPte(r.pp, flags & PTE_G)]));
    }
  }

  // getLeaf: the level-0 table for vpn, with missing tables created on the way. Only without a free page does
  // it fail, and never if the tables are there.
  method GetLeaf(mmu: Mmu, vpn: nat, flags: bv8) returns (ok: bool, pt0: nat)
    requires mmu.phys.Valid() && Standing(mmu.phys.mem, mmu.phys.chunks, mmu.activePt2)
    requires vpn < VPN_LIMIT && flags & PTE_G == 0
    requires UserSlot(mmu.phys.mem, mmu.activePt2, VPN2(vpn))
    modifies mmu.phys
    ensures !ok ==> NoneFree(mmu.phys.chunks)
    ensures var m0, m1, root := old(mmu.phys.mem), mmu.phys.mem, mmu.activePt2;
      ok ==>
        && mmu.phys.Valid() && Standing(m1, mmu.phys.chunks, root)
        && Reached(m1, root, VPN2(vpn), VPN1(vpn)) && pt0 == Pt0(m1, root, VPN2(vpn), VPN1(vpn))
        && SameWalks(m0, m1, root) && SameSlots(m0, m1, root)
        && TablesGrown(m0, old(mmu.phys.chunks), m1, mmu.phys.chunks, root, {})
    ensures ok && old(mmu.Valid()) ==> mmu.Valid() && Gained(old(mmu.Owns()), old(mmu.phys.chunks), mmu.Owns(), {})
    ensures old(Reached(mmu.phys.mem, mmu.activePt2, VPN2(vpn), VPN1(vpn))) ==>
      ok && mmu.phys.mem == old(mmu.phys.mem) && mmu.phys.chunks == old(mmu.phys.chunks)
  {
    pt0 := NULL;
    var pt2 := mmu.activePt2;
    ghost var m0, cs0 := mmu.phys.mem, mmu.phys.chunks;
    ghost var c;
    assert Tab(m0, pt2, pt2);
    ok, c := EnsureTable(mmu, pt2, VPN2(vpn), flags);
    if !ok { return; }
    ghost var m1, cs1 := mmu.phys.mem, mmu.phys.chunks;
    AfterRoot(m0, cs0, m1, cs1, pt2, VPN2(vpn), c);
    assert Tab(m1, pt2, pt2);
    var pt1 := mmu.phys.mem[pt2].w[VPN2(vpn)].ppn;
    TabsPassed(m1, pt2, VPN2(vpn), VPN1(vpn));
    ok, c := EnsureTable(mmu, pt1, VPN1(vpn), flags);
    if !ok { return; }
    AfterPt1(m1, cs1, mmu.phys.mem, mmu.phys.chunks, pt2, VPN2(vpn), VPN1(vpn), c);
    GrownTwice(m0, cs0, m1, cs1, mmu.phys.mem, mmu.phys.chunks, pt2);
    WalksTwice(m0, m1, mmu.phys.mem, pt2);
    TabsPassed(mmu.phys.mem, pt2, VPN2(vpn), VPN1(vpn));
    pt0 := mmu.phys.mem[pt1].w[VPN1(vpn)].ppn;
  }

  lemma WalksTwice(m0: seq<Page>, m1: seq<Page>, m2: seq<Page>, root: nat)
    requires SameWalks(m0, m1, root) && SameSlots(m0, m1, root)
    requires SameWalks(m1, m2, root) && SameSlots(m1, m2, root)
    ensures SameWalks(m0, m2, root) && SameSlots(m0, m2, root)
  {
    forall i: nat, j: nat, k: nat
      | i < WORDS_PER_PAGE && j < WORDS_PER_PAGE && k < WORDS_PER_PAGE && UserSlot(m0, root, i)
      ensures Walk(m2, root, i, j, k) == Walk(m0, root, i, j, k)
    {
      assert Walk(m2, root, i, j, k) == Walk(m1, root, i, j, k);
    }
  }

  lemma AfterRoot(m0: seq<Page>, cs0: seq<Chunk>, m1: seq<Page>, cs1: seq<Chunk>, root: nat, i: nat, c: nat)
    requires Standing(m0, cs0, root) && i < WORDS_PER_PAGE && UserSlot(m0, root, i)
    requires Valid(Entry(m0, root, i)) ==> m1 == m0 && cs1 == cs0
    requires !Valid(Entry(m0, root, i)) ==> Hung(m0, cs0, m1, cs1, root, i, c)
    ensures Standing(m1, cs1, root) && User(Entry(m1, root, i))
    ensures SameWalks(m0, m1, root) && SameSlots(m0, m1, root)
    ensures TablesGrown(m0, cs0, m1, cs1, root, {})
    ensures Owned(m0, cs0, root, ROOT) ==>
      Owned(m1, cs1, root, ROOT) && Gained(Foot(m0, root, ROOT), cs0, Foot(m1, root, ROOT), {})
  {
    if !Valid(Entry(m0, root, i)) {
      HungBeside(m0, cs0, m1, cs1, root, root, i, c);
      HangBelowRoot(m0, m1, root, i, c);
      HungGrows(m0, cs0, m1, cs1, root, root, i, c);
      if Owned(m0, cs0, root, ROOT) {
        HungAgree(m0, cs0, m1, cs1, root, root, i, c);
        HangRootTree(m0, m1, root, i, c);
      }
    }
  }

  lemma HungBeside(m0: seq<Page>, cs0: seq<Chunk>, m1: seq<Page>, cs1: seq<Chunk>, root: nat, t: nat, k: nat, c: nat)
    requires Standing(m0, cs0, root) && Hung(m0, cs0, m1, cs1, t, k, c)
    ensures Beside(m0, m1, root, t, c)
  {
    assert Free(cs0, c);
  }

  lemma HungAgree(m0: seq<Page>, cs0: seq<Chunk>, m1: seq<Page>, cs1: seq<Chunk>, root: nat, t: nat, k: nat, c: nat)
    requires Owned(m0, cs0, root, ROOT) && Hung(m0, cs0, m1, cs1, t, k, c)
    ensures c !in Foot(m0, root, ROOT) && Agree(m0, m1, Foot(m0, root, ROOT) - {t})
    ensures forall p :: p in Foot(m0, root, ROOT) + {c} ==> p != NULL && !Free(cs1, p)
  {
    assert Free(cs0, c);
    FootInMemory(m0, root, ROOT);
  }

  lemma HungGrows(m0: seq<Page>, cs0: seq<Chunk>, m1: seq<Page>, cs1: seq<Chunk>, root: nat, t: nat, k: nat, c: nat)
    requires Standing(m0, cs0, root) && Hung(m0, cs0, m1, cs1, t, k, c) && Tab(m0, root, t)
    requires Skeleton(m1, root) && forall p: nat :: Tab(m1, root, p) <==> Tab(m0, root, p) || p == c
    ensures Standing(m1, cs1, root) && TablesGrown(m0, cs0, m1, cs1, root, {})
  {
  }

  lemma AfterPt1(m1: seq<Page>, cs1: seq<Chunk>, m2: seq<Page>, cs2: seq<Chunk>, root: nat, i: nat, j: nat, c: nat)
    requires Standing(m1, cs1, root) && i < WORDS_PER_PAGE && j < WORDS_PER_PAGE && User(Entry(m1, root, i))
    requires var t := Pt1(m1, root, i);
      && (Valid(Entry(m1, t, j)) ==> m2 == m1 && cs2 == cs1)
      && (!Valid(Entry(m1, t, j)) ==> Hung(m1, cs1, m2, cs2, t, j, c))
    ensures Standing(m2, cs2, root) && Reached(m2, root, i, j) && Pt1(m2, root, i) == Pt1(m1, root, i)
    ensures SameWalks(m1, m2, root) && SameSlots(m1, m2, root)
    ensures TablesGrown(m1, cs1, m2, cs2, root, {})
    ensures Owned(m1, cs1, root, ROOT) ==>
      Owned(m2, cs2, root, ROOT) && Gained(Foot(m1, root, ROOT), cs1, Foot(m2, root, ROOT), {})
  {
    var t := Pt1(m1, root, i);
    assert Apart(m1, root, i, j, i, j);
    TabsPassed(m1, root, i, j);
    if !Valid(Entry(m1, t, j)) {
      HungBeside(m1, cs1, m2, cs2, root, t, j, c);
      HangBelowPt1(m1, m2, root, i, j, c);
      HungGrows(m1, cs1, m2, cs2, root, t, j, c);
      if Owned(m1, cs1, root, ROOT) {
        HungAgree(m1, cs1, m2, cs2, root, t, j, c);
        HangPt1Tree(m1, m2, root, i, j, c);
      }
    }
  }

  // The walks of m1 are those of m0, except that the n pages from vpn on lead to the run at pp.
  ghost predicate RangeMapped(m0: seq<Page>, m1: seq<Page>, root: nat, vpn: nat, n: nat, pp: nat, flags: bv8) {
    && SameSlots(m0, m1, root)
    && (forall v: nat {:trigger WalkTo(m1, root, v)} :: v < VPN_LIMIT && UserSlot(m0, root, VPN2(v)) ==>
          WalkTo(m1, root, v) == if vpn <= v < vpn + n then LeafPte(pp + v - vpn, flags) else WalkTo(m0, root, v))
  }

  predicate InRun(pp: nat, n: nat, p: nat) { pp <= p < pp + n }

  ghost function Run(pp: nat, n: nat): set<nat> { set p: nat | p < pp + n && InRun(pp, n, p) }

  // Page p is in use, but not by the address space that owns the pages f.
  ghost predicate Foreign(m: seq<Page>, cs: seq<Chunk>, f: set<nat>, p: nat) {
    p != NULL && IsTable(m, p) && !Free(cs, p) && p !in f
  }

  ghost predicate Mappable(m: seq<Page>, cs: seq<Chunk>, f: set<nat>, pp: nat, n: nat) {
    forall p: nat :: pp <= p < pp + n ==> Foreign(m, cs, f, p)
  }

  // The virtual pages lie outside the kernel's global mappings.
  ghost predicate UserRange(m: seq<Page>, root: nat, vpn: nat, n: nat) {
    forall v: nat {:trigger VPN2(v)} :: vpn <= v < vpn + n ==> UserSlot(m, root, VPN2(v))
  }

  // one round of the loop of map_range
  method MapPage(mmu: Mmu, vpn: nat, pp: nat, flags: bv8) returns (ok: bool)
    requires mmu.Valid() && vpn < VPN_LIMIT && flags & PTE_G == 0
    requires UserSlot(mmu.phys.mem, mmu.activePt2, VPN2(vpn))
    requires Foreign(mmu.phys.mem, mmu.phys.chunks, mmu.Owns(), pp)
    modifies mmu.phys
    ensures !ok ==> NoneFree(mmu.phys.chunks)
    ensures ok ==> mmu.Valid()
    ensures ok ==> OneWalk(old(mmu.phys.mem), mmu.phys.mem, mmu.activePt2, vpn, LeafPte(pp, flags))
    ensures ok ==> SameSlots(old(mmu.phys.mem), mmu.phys.mem, mmu.activePt2)
    ensures ok ==>
      TablesGrown(old(mmu.phys.mem), old(mmu.phys.chunks), mmu.phys.mem, mmu.phys.chunks, mmu.activePt2, {})
    ensures ok ==> Gained(old(mmu.Owns()), old(mmu.phys.chunks), mmu.Owns(), {pp})
  {
    var pt0;
    ghost var root := mmu.activePt2;
    OwnedStands(mmu.phys.mem, mmu.phys.chunks, root);
    ok, pt0 := GetLeaf(mmu, vpn, flags);
    if !ok { return; }
    TabsPassed(mmu.phys.mem, root, VPN2(vpn), VPN1(vpn));
    LeafWritten(old(mmu.phys.mem), old(mmu.phys.chunks), mmu.phys.mem, mmu.phys.chunks, root, vpn, LeafPte(pp, flags));
    LeafMapped(old(mmu.phys.mem), old(mmu.phys.chunks), old(mmu.Owns()), mmu.phys.mem, mmu.phys.chunks, root, vpn, pp,
               flags);
    mmu.phys.Store(pt0, Words(mmu.phys.mem[pt0].w[VPN0(vpn) := LeafPte(pp, flags)]));
  }

  // Any word written into the leaf entry that GetLeaf found.
  lemma LeafWritten(m0: seq<Page>, cs0: seq<Chunk>, m: seq<Page>, cs: seq<Chunk>, root: nat, vpn: nat, w: Word)
    requires Standing(m, cs, root) && vpn < VPN_LIMIT && Reached(m, root, VPN2(vpn), VPN1(vpn))
    requires SameWalks(m0, m, root) && SameSlots(m0, m, root) && TablesGrown(m0, cs0, m, cs, root, {})
    ensures var z := Pt0(m, root, VPN2(vpn), VPN1(vpn));
      && Tab(m, root, z) && IsTable(m, z)
      && var m1 := Put(m, z, VPN0(vpn), w);
      && Standing(m1, cs, root) && OneWalk(m0, m1, root, vpn, w) && SameSlots(m0, m1, root)
      && TablesGrown(m0, cs0, m1, cs, root, {})
  {
    var z := Pt0(m, root, VPN2(vpn), VPN1(vpn));
    TabsPassed(m, root, VPN2(vpn), VPN1(vpn));
    var m1 := Put(m, z, VPN0(vpn), w);
    SetLeafWalks(m, m1, root, vpn, w);
    forall v: nat | v < VPN_LIMIT && UserSlot(m0, root, VPN2(v))
      ensures WalkTo(m1, root, v) == if v == vpn then w else WalkTo(m0, root, v)
    {
      assert WalkTo(m, root, v) == WalkTo(m0, root, v);
    }
  }

  lemma LeafMapped(m0: seq<Page>, cs0: seq<Chunk>, f0: set<nat>, m: seq<Page>, cs: seq<Chunk>,
                   root: nat, vpn: nat, pp: nat, flags: bv8)
    requires Owned(m, cs, root, ROOT) && vpn < VPN_LIMIT && Reached(m, root, VPN2(vpn), VPN1(vpn)) && flags & PTE_G == 0
    requires TablesGrown(m0, cs0, m, cs, root, {}) && Gained(f0, cs0, Foot(m, root, ROOT), {})
    requires Foreign(m0, cs0, f0, pp) && !Tab(m0, root, pp)
    requires var z := Pt0(m, root, VPN2(vpn), VPN1(vpn)); IsTable(m, z)
    ensures var m1 := Put(m, Pt0(m, root, VPN2(vpn), VPN1(vpn)), VPN0(vpn), LeafPte(pp, flags));
      Owned(m1, cs, root, ROOT) && Gained(f0, cs0, Foot(m1, root, ROOT), {pp})
  {
    var z := Pt0(m, root, VPN2(vpn), VPN1(vpn));
    assert pp !in Foot(m, root, ROOT) && !Free(cs, pp) && m[pp] == m0[pp];
    SetLeaf(m, Put(m, z, VPN0(vpn), LeafPte(pp, flags)), root, vpn, pp, flags);
  }

  lemma RangeStep(m0: seq<Page>, m: seq<Page>, m1: seq<Page>, root: nat, vpn: nat, i: nat, pp: nat, flags: bv8)
    requires RangeMapped(m0, m, root, vpn, i, pp, flags)
    requires OneWalk(m, m1, root, vpn + i, LeafPte(pp + i, flags)) && SameSlots(m, m1, root)
    ensures RangeMapped(m0, m1, root, vpn, i + 1, pp, flags)
  {
  }

  function PagesOf(size: nat): nat { (size + 4095) / 4096 }

  // What the pages mapped in m0 hold is kept.
  ghost predicate ReadsKept(m0: seq<Page>, m1: seq<Page>, root: nat) {
    forall v: nat {:trigger WalkTo(m0, root, v)} ::
      v < VPN_LIMIT && UserSlot(m0, root, VPN2(v)) && User(WalkTo(m0, root, v)) ==>
        SamePage(m0, m1, WalkTo(m0, root, v).ppn)
  }

  predicate SamePage(m0: seq<Page>, m1: seq<Page>, p: nat) { p < |m0| && p < |m1| && m1[p] == m0[p] }

  lemma ContentsKept(m0: seq<Page>, cs0: seq<Chunk>, m1: seq<Page>, cs1: seq<Chunk>, root: nat, run: set<nat>)
    requires Owned(m0, cs0, root, ROOT) && TablesGrown(m0, cs0, m1, cs1, root, run)
    ensures ReadsKept(m0, m1, root)
  {
    FootInMemory(m0, root, ROOT);
    forall v: nat | v < VPN_LIMIT && UserSlot(m0, root, VPN2(v)) && User(WalkTo(m0, root, v))
      ensures SamePage(m0, m1, WalkTo(m0, root, v).ppn)
    {
      MappedIsNoTab(m0, root, v);
    }
  }

  lemma RunKept(m0: seq<Page>, cs0: seq<Chunk>, m1: seq<Page>, cs1: seq<Chunk>, root: nat, pp: nat, n: nat)
    requires Owned(m0, cs0, root, ROOT) && Mappable(m0, cs0, Foot(m0, root, ROOT), pp, n)
    requires TablesGrown(m0, cs0, m1, cs1, root, {})
    ensures forall p: nat :: pp <= p < pp + n ==> SamePage(m0, m1, p)
  {
    TreeHasSkeleton(m0, root);
    forall p: nat | pp <= p < pp + n ensures SamePage(m0, m1, p) {
      assert Foreign(m0, cs0, Foot(m0, root, ROOT), p);
    }
  }

  // Walks through the kernel's global entries stay, if the kernel's tables are in use and not the space's own.
  lemma KernelWalksKept(m0: seq<Page>, cs0: seq<Chunk>, m1: seq<Page>, cs1: seq<Chunk>, root: nat, run: set<nat>,
                        i: nat, j: nat, k: nat)
    requires SameSlots(m0, m1, root) && TablesGrown(m0, cs0, m1, cs1, root, run)
    requires i < WORDS_PER_PAGE && j < WORDS_PER_PAGE && k < WORDS_PER_PAGE && !UserSlot(m0, root, i)
    requires var t := Entry(m0, root, i).ppn;
      && IsTable(m0, t) && !Free(cs0, t) && !Tab(m0, root, t)
      && (Valid(Entry(m0, t, j)) ==>
            var z := Entry(m0, t, j).ppn; IsTable(m0, z) && !Free(cs0, z) && !Tab(m0, root, z))
    ensures Walk(m1, root, i, j, k) == Walk(m0, root, i, j, k)
  {
    assert Entry(m1, root, i) == Entry(m0, root, i);
  }

  // map_range on a page-aligned address; size is rounded up to whole pages.
  method MapRange(mmu: Mmu, vma: nat, size: nat, pp: nat, flags: bv8) returns (ok: bool)
    requires mmu.Valid() && vma % 4096 == 0 && flags & PTE_G == 0
    requires vma / 4096 + PagesOf(size) <= VPN_LIMIT
    requires UserRange(mmu.phys.mem, mmu.activePt2, vma / 4096, PagesOf(size))
    requires Mappable(mmu.phys.mem, mmu.phys.chunks, mmu.Owns(), pp, PagesOf(size))
    modifies mmu.phys
    // it fails only by running out of pages for tables
    ensures !ok ==> NoneFree(mmu.phys.chunks)
    ensures ok ==> mmu.Valid()
    ensures ok ==> RangeMapped(old(mmu.phys.mem), mmu.phys.mem, mmu.activePt2, vma / 4096, PagesOf(size), pp, flags)
    ensures ok ==>
      TablesGrown(old(mmu.phys.mem), old(mmu.phys.chunks), mmu.phys.mem, mmu.phys.chunks, mmu.activePt2, {})
    ensures ok ==> Gained(old(mmu.Owns()), old(mmu.phys.chunks), mmu.Owns(), Run(pp, PagesOf(size)))
    // no mapped page is written to, old or new
    ensures ok ==> ReadsKept(old(mmu.phys.mem), mmu.phys.mem, mmu.activePt2)
    ensures ok ==> forall p: nat :: pp <= p < pp + PagesOf(size) ==> SamePage(old(mmu.phys.mem), mmu.phys.mem, p)
  {
    ghost var m0, cs0, root := mmu.phys.mem, mmu.phys.chunks, mmu.activePt2;
    var rounded := PagesOf(size) * 4096;
    ok := MapPages(mmu, vma / 4096, rounded / 4096, pp, flags);
    if ok {
      ContentsKept(m0, cs0, mmu.phys.mem, mmu.phys.chunks, root, {});
      RunKept(m0, cs0, mmu.phys.mem, mmu.phys.chunks, root, pp, PagesOf(size));
    }
  }

  // Where the loop of map_range stands after i pages.
  ghost predicate MappedSoFar(m0: seq<Page>, cs0: seq<Chunk>, m: seq<Page>, cs: seq<Chunk>, root: nat,
                              vpn: nat, i: nat, pp: nat, flags: bv8)
  {
    && RangeMapped(m0, m, root, vpn, i, pp, flags)
    && TablesGrown(m0, cs0, m, cs, root, {})
    && Gained(Foot(m0, root, ROOT), cs0, Foot(m, root, ROOT), Run(pp, i))
  }

  // the loop of map_range
  method MapPages(mmu: Mmu, vpn: nat, n: nat, pp: nat, flags: bv8) returns (ok: bool)
    requires mmu.Valid() && vpn + n <= VPN_LIMIT && flags & PTE_G == 0
    requires UserRange(mmu.phys.mem, mmu.activePt2, vpn, n)
    requires Mappable(mmu.phys.mem, mmu.phys.chunks, mmu.Owns(), pp, n)
    modifies mmu.phys
    ensures !ok ==> NoneFree(mmu.phys.chunks)
    ensures ok ==> mmu.Valid() && MappedSoFar(old(mmu.phys.mem), old(mmu.phys.chunks), mmu.phys.mem, mmu.phys.chunks,
                                              mmu.activePt2, vpn, n, pp, flags)
  {
    ghost var m0, cs0 := mmu.phys.mem, mmu.phys.chunks;
    for i := 0 to n
      invariant mmu.Valid()
      invariant MappedSoFar(m0, cs0, mmu.phys.mem, mmu.phys.chunks, mmu.activePt2, vpn, i, pp, flags)
    {
      ok := MapNext(mmu, vpn, i, n, pp, flags, m0, cs0);
      if !ok { return; }
    }
    ok := true;
  }

  method MapNext(mmu: Mmu, vpn: nat, i: nat, n: nat, pp: nat, flags: bv8, ghost m0: seq<Page>, ghost cs0: seq<Chunk>)
      returns (ok: bool)
    requires mmu.Valid() && i < n && vpn + n <= VPN_LIMIT && flags & PTE_G == 0
    requires Owned(m0, cs0, mmu.activePt2, ROOT) && UserRange(m0, mmu.activePt2, vpn, n)
    requires Mappable(m0, cs0, Foot(m0, mmu.activePt2, ROOT), pp, n)
    requires MappedSoFar(m0, cs0, mmu.phys.mem, mmu.phys.chunks, mmu.activePt2, vpn, i, pp, flags)
    modifies mmu.phys
    ensures !ok ==> NoneFree(mmu.phys.chunks)
    ensures ok ==> mmu.Valid()
    ensures ok ==> MappedSoFar(m0, cs0, mmu.phys.mem, mmu.phys.chunks, mmu.activePt2, vpn, i + 1, pp, flags)
  {
    ghost var m, cs, root := mmu.phys.mem, mmu.phys.chunks, mmu.activePt2;
    NextPage(m0, cs0, m, cs, root, vpn, i, n, pp, flags);
    ok := MapPage(mmu, vpn + i, pp + i, flags);
    if ok { PageDone(m0, cs0, m, cs, mmu.phys.mem, mmu.phys.chunks, root, vpn, i, pp, flags); }
  }

  lemma PageDone(m0: seq<Page>, cs0: seq<Chunk>, m: seq<Page>, cs: seq<Chunk>, m1: seq<Page>, cs1: seq<Chunk>,
                 root: nat, vpn: nat, i: nat, pp: nat, flags: bv8)
    requires MappedSoFar(m0, cs0, m, cs, root, vpn, i, pp, flags)
    requires OneWalk(m, m1, root, vpn + i, LeafPte(pp + i, flags)) && SameSlots(m, m1, root)
    requires TablesGrown(m, cs, m1, cs1, root, {}) && Gained(Foot(m, root, ROOT), cs, Foot(m1, root, ROOT), {pp + i})
    ensures MappedSoFar(m0, cs0, m1, cs1, root, vpn, i + 1, pp, flags)
  {
    RangeStep(m0, m, m1, root, vpn, i, pp, flags);
    GrownTwice(m0, cs0, m, cs, m1, cs1, root);
  }

  // The next page of the run is still fit for mapping.
  lemma NextPage(m0: seq<Page>, cs0: seq<Chunk>, m: seq<Page>, cs: seq<Chunk>, root: nat, vpn: nat, i: nat, n: nat,
                 pp: nat, flags: bv8)
    requires i < n && Owned(m0, cs0, root, ROOT) && Mappable(m0, cs0, Foot(m0, root, ROOT), pp, n)
    requires UserRange(m0, root, vpn, n) && MappedSoFar(m0, cs0, m, cs, root, vpn, i, pp, flags)
    ensures Foreign(m, cs, Foot(m, root, ROOT), pp + i) && UserSlot(m, root, VPN2(vpn + i))
  {
    assert Foreign(m0, cs0, Foot(m0, root, ROOT), pp + i) && pp + i !in Run(pp, i);
    assert UserSlot(m0, root, VPN2(vpn + i));
    TreeHasSkeleton(m0, root);
  }

  // alloc_and_map_range: a fresh run of zeroed pages, mapped at vma. It fails only if no run is long enough,
  // which changes nothing, or if the pages run out at a table.
  method AllocAndMapRange(mmu: Mmu, vma: nat, size: nat, flags: bv8) returns (ok: bool, ghost pp: nat)
    requires mmu.Valid() && vma % 4096 == 0 && flags & PTE_G == 0
    requires vma / 4096 + PagesOf(size) <= VPN_LIMIT
    requires UserRange(mmu.phys.mem, mmu.activePt2, vma / 4096, PagesOf(size))
    modifies mmu.phys
    ensures !ok ==>
      || NoneFree(mmu.phys.chunks)
      || (&& PagesOf(size) > 0 && !(exists p: nat :: FreeRun(old(mmu.phys.chunks), p, PagesOf(size)))
          && mmu.phys.mem == old(mmu.phys.mem) && mmu.phys.chunks == old(mmu.phys.chunks))
    ensures ok ==> mmu.Valid()
    ensures ok ==> RangeMapped(old(mmu.phys.mem), mmu.phys.mem, mmu.activePt2, vma / 4096, PagesOf(size), pp, flags)
    ensures ok ==> TablesGrown(old(mmu.phys.mem), old(mmu.phys.chunks), mmu.phys.mem, mmu.phys.chunks, mmu.activePt2,
                               Run(pp, PagesOf(size)))
    ensures ok ==>
      forall p: nat :: pp <= p < pp + PagesOf(size) ==>
        old(Free(mmu.phys.chunks, p)) && !Free(mmu.phys.chunks, p) && ZeroAt(mmu.phys.mem, p)
    ensures ok ==> ReadsKept(old(mmu.phys.mem), mmu.phys.mem, mmu.activePt2)
  {
    ok, pp := false, NULL;
    ghost var m0, cs0, root := mmu.phys.mem, mmu.phys.chunks, mmu.activePt2;
    var r := mmu.phys.AllocPhysPages(PagesOf(size));
    if r.Panic? { return; }
    var run := if r.Pages? then r.pp else NULL;
    pp := run;
    ghost var m1, cs1 := mmu.phys.mem, mmu.phys.chunks;
    RunTaken(m0, cs0, m1, cs1, root, pp, PagesOf(size));
    ok := MapRange(mmu, vma, size, run, flags);
    if ok {
      RunThenTables(m0, cs0, m1, cs1, mmu.phys.mem, mmu.phys.chunks, root, pp, PagesOf(size));
      MappedLater(m0, m1, mmu.phys.mem, root, vma / 4096, PagesOf(size), pp, flags);
      ContentsKept(m0, cs0, mmu.phys.mem, mmu.phys.chunks, root, Run(pp, PagesOf(size)));
    }
  }

  ghost predicate ZeroAt(m: seq<Page>, p: nat) { p < |m| && ZeroPage(m[p]) }

  // A run of n pages at pp has left the free list, zeroed; for n == 0 nothing has happened.
  ghost predicate Taken(m0: seq<Page>, cs0: seq<Chunk>, m1: seq<Page>, cs1: seq<Chunk>, pp: nat, n: nat) {
    && (n == 0 ==> m1 == m0 && cs1 == cs0)
    && (n > 0 ==>
          && Adds(cs1, cs0, pp, n) && SameUsed(cs0, m0, m1) && NULL < pp && pp + n <= |m1|
          && (forall p :: pp <= p < pp + n ==> ZeroPage(m1[p])))
  }

  // After a run has left the free list the space is as before, and the run is fit for mapping.
  lemma RunTaken(m0: seq<Page>, cs0: seq<Chunk>, m1: seq<Page>, cs1: seq<Chunk>, root: nat, pp: nat, n: nat)
    requires Owned(m0, cs0, root, ROOT) && Taken(m0, cs0, m1, cs1, pp, n)
    ensures Owned(m1, cs1, root, ROOT) && Foot(m1, root, ROOT) == Foot(m0, root, ROOT)
    ensures Mappable(m1, cs1, Foot(m1, root, ROOT), pp, n)
    ensures SameWalks(m0, m1, root) && SameSlots(m0, m1, root)
    ensures forall p: nat :: Tab(m1, root, p) <==> Tab(m0, root, p)
    ensures forall v: nat :: v < VPN_LIMIT ==> UserSlot(m1, root, VPN2(v)) == UserSlot(m0, root, VPN2(v))
  {
    FootInMemory(m0, root, ROOT);
    Frame(m0, m1, root, ROOT);
    assert root in Foot(m0, root, ROOT);
    forall i: nat, j: nat | i < WORDS_PER_PAGE && j < WORDS_PER_PAGE ensures SameWay(m0, m1, root, i, j) {
      if User(Entry(m0, root, i)) { BelowRoot(m0, root, i, j); }
    }
    SameWaysTabs(m0, m1, root);
    forall i: nat, j: nat, k: nat
      | i < WORDS_PER_PAGE && j < WORDS_PER_PAGE && k < WORDS_PER_PAGE && UserSlot(m0, root, i)
      ensures Walk(m1, root, i, j, k) == Walk(m0, root, i, j, k)
    {
      assert SameWay(m0, m1, root, i, j);
      if Valid(Entry(m0, root, i)) { BelowRoot(m0, root, i, j); }
    }
  }

  lemma RunThenTables(m0: seq<Page>, cs0: seq<Chunk>, m1: seq<Page>, cs1: seq<Chunk>, m2: seq<Page>, cs2: seq<Chunk>,
                      root: nat, pp: nat, n: nat)
    requires Taken(m0, cs0, m1, cs1, pp, n) && forall p: nat :: Tab(m1, root, p) <==> Tab(m0, root, p)
    requires TablesGrown(m1, cs1, m2, cs2, root, {})
    ensures TablesGrown(m0, cs0, m2, cs2, root, Run(pp, n))
    requires forall p: nat :: pp <= p < pp + n ==> SamePage(m1, m2, p)
    ensures forall p: nat :: pp <= p < pp + n ==> Free(cs0, p) && !Free(cs2, p) && ZeroAt(m2, p)
  {
    forall p: nat | pp <= p < pp + n ensures Free(cs0, p) && !Free(cs2, p) && ZeroAt(m2, p) {
      assert SamePage(m1, m2, p);
    }
  }

  lemma MappedLater(m0: seq<Page>, m1: seq<Page>, m2: seq<Page>, root: nat, vpn: nat, n: nat, pp: nat, flags: bv8)
    requires SameWalks(m0, m1, root) && SameSlots(m0, m1, root) && RangeMapped(m1, m2, root, vpn, n, pp, flags)
    ensures RangeMapped(m0, m2, root, vpn, n, pp, flags)
  {
    forall v: nat | v < VPN_LIMIT && UserSlot(m0, root, VPN2(v)) ensures WalkTo(m1, root, v) == WalkTo(m0, root, v) {}
  }

  // The walks of m1 are those of m0, except that the n pages from vpn on have the given flags.
  ghost predicate RangeFlagged(m0: seq<Page>, m1: seq<Page>, root: nat, vpn: nat, n: nat, flags: bv8) {
    && SameSlots(m0, m1, root)
    && (forall v: nat {:trigger WalkTo(m1, root, v)} :: v < VPN_LIMIT && UserSlot(m0, root, VPN2(v)) ==>
          WalkTo(m1, root, v) ==
            if vpn <= v < vpn + n then LeafPte(WalkTo(m0, root, v).ppn, flags) else WalkTo(m0, root, v))
  }

  ghost predicate MappedRange(m: seq<Page>, root: nat, vpn: nat, n: nat) {
    forall v: nat {:trigger WalkTo(m, root, v)} :: vpn <= v < vpn + n ==> User(WalkTo(m, root, v))
  }

  // The same virtual pages are mapped.
  ghost predicate SameMapped(m0: seq<Page>, m1: seq<Page>, root: nat) {
    forall v: nat {:trigger WalkTo(m1, root, v)} :: v < VPN_LIMIT && UserSlot(m0, root, VPN2(v)) ==>
      (User(WalkTo(m1, root, v)) <==> User(WalkTo(m0, root, v)))
  }

  // set_range_flags on a page-aligned address, for any range outside the kernel's mappings. It maps every page
  // of the range: it changes flags only exactly if all of them were mapped before, and then it cannot fail.
  method SetRangeFlags(mmu: Mmu, vma: nat, size: nat, flags: bv8) returns (ok: bool)
    requires mmu.Valid() && vma % 4096 == 0 && flags & PTE_G == 0
    requires vma / 4096 + PagesOf(size) <= VPN_LIMIT
    requires UserRange(mmu.phys.mem, mmu.activePt2, vma / 4096, PagesOf(size))
    modifies mmu.phys
    ensures !ok ==> NoneFree(mmu.phys.chunks)
    ensures var m0, m1, root := old(mmu.phys.mem), mmu.phys.mem, mmu.activePt2;
      ok ==>
        && mmu.phys.Valid() && Standing(m1, mmu.phys.chunks, root)
        && RangeFlagged(m0, m1, root, vma / 4096, PagesOf(size), flags)
        && TablesGrown(m0, old(mmu.phys.chunks), m1, mmu.phys.chunks, root, {})
        && (SameMapped(m0, m1, root) <==> MappedRange(m0, root, vma / 4096, PagesOf(size)))
        && ReadsKept(m0, m1, root)
    ensures old(MappedRange(mmu.phys.mem, mmu.activePt2, vma / 4096, PagesOf(size))) ==>
      ok && mmu.Valid() && mmu.Owns() == old(mmu.Owns()) && mmu.phys.chunks == old(mmu.phys.chunks)
  {
    ghost var m0, cs0, root := mmu.phys.mem, mmu.phys.chunks, mmu.activePt2;
    var rounded := PagesOf(size) * 4096;
    ok := SetPagesFlags(mmu, vma / 4096, rounded / 4096, flags);
    if ok {
      FlagsMapAll(m0, mmu.phys.mem, root, vma / 4096, PagesOf(size), flags);
      ContentsKept(m0, cs0, mmu.phys.mem, mmu.phys.chunks, root, {});
    }
  }

  // Setting flags maps whatever it meets: the set of mapped pages is kept exactly if the whole range was mapped.
  lemma FlagsMapAll(m0: seq<Page>, m1: seq<Page>, root: nat, vpn: nat, n: nat, flags: bv8)
    requires flags & PTE_G == 0 && vpn + n <= VPN_LIMIT && UserRange(m0, root, vpn, n)
    requires RangeFlagged(m0, m1, root, vpn, n, flags)
    ensures SameMapped(m0, m1, root) <==> MappedRange(m0, root, vpn, n)
    ensures MappedRange(m1, root, vpn, n)
  {
    forall v: nat | vpn <= v < vpn + n ensures User(WalkTo(m1, root, v)) {
      assert UserSlot(m0, root, VPN2(v));
      LeafPteIsUser(WalkTo(m0, root, v).ppn, flags);
    }
    if SameMapped(m0, m1, root) {
      forall v: nat | vpn <= v < vpn + n ensures User(WalkTo(m0, root, v)) {
        assert UserSlot(m0, root, VPN2(v)) && User(WalkTo(m1, root, v));
      }
    }
  }

  lemma LeafPteIsUser(pp: nat, flags: bv8)
    requires flags & PTE_G == 0
    ensures User(LeafPte(pp, flags))
  {
  }

  // Where the loop of set_range_flags stands after i pages, if the whole range was mapped or not.
  ghost predicate FlaggedSoFar(m0: seq<Page>, cs0: seq<Chunk>, m: seq<Page>, cs: seq<Chunk>, root: nat,
                               vpn: nat, i: nat, flags: bv8, mapped: bool)
  {
    && Standing(m, cs, root) && RangeFlagged(m0, m, root, vpn, i, flags)
    && TablesGrown(m0, cs0, m, cs, root, {})
    && (mapped ==>
          Owned(m, cs, root, ROOT) && Foot(m, root, ROOT) == Foot(m0, root, ROOT) && cs == cs0)
  }

  // the loop of set_range_flags
  method SetPagesFlags(mmu: Mmu, vpn: nat, n: nat, flags: bv8) returns (ok: bool)
    requires mmu.Valid() && vpn + n <= VPN_LIMIT && flags & PTE_G == 0
    requires UserRange(mmu.phys.mem, mmu.activePt2, vpn, n)
    modifies mmu.phys
    ensures !ok ==> NoneFree(mmu.phys.chunks)
    ensures ok ==> mmu.phys.Valid()
    ensures ok ==> FlaggedSoFar(old(mmu.phys.mem), old(mmu.phys.chunks), mmu.phys.mem, mmu.phys.chunks,
                                mmu.activePt2, vpn, n, flags, old(MappedRange(mmu.phys.mem, mmu.activePt2, vpn, n)))
    ensures old(MappedRange(mmu.phys.mem, mmu.activePt2, vpn, n)) ==> ok
  {
    ghost var m0, cs0 := mmu.phys.mem, mmu.phys.chunks;
    ghost var mapped := MappedRange(m0, mmu.activePt2, vpn, n);
    FlagsStart(m0, cs0, mmu.activePt2, vpn, flags, mapped);
    for i := 0 to n
      invariant mmu.phys.Valid()
      invariant FlaggedSoFar(m0, cs0, mmu.phys.mem, mmu.phys.chunks, mmu.activePt2, vpn, i, flags, mapped)
    {
      NextFlags(m0, mmu.phys.mem, mmu.activePt2, vpn, i, n, flags);
      ok := SetNextFlags(mmu, vpn, i, flags, m0, cs0, mapped);
      if !ok { return; }
    }
    ok := true;
  }

  lemma FlagsStart(m: seq<Page>, cs: seq<Chunk>, root: nat, vpn: nat, flags: bv8, mapped: bool)
    requires Owned(m, cs, root, ROOT)
    ensures FlaggedSoFar(m, cs, m, cs, root, vpn, 0, flags, mapped)
  {
    OwnedStands(m, cs, root);
  }

  method SetNextFlags(mmu: Mmu, vpn: nat, i: nat, flags: bv8,
                      ghost m0: seq<Page>, ghost cs0: seq<Chunk>, ghost mapped: bool)
      returns (ok: bool)
    requires mmu.phys.Valid() && vpn + i < VPN_LIMIT && flags & PTE_G == 0
    requires UserSlot(mmu.phys.mem, mmu.activePt2, VPN2(vpn + i))
    requires WalkTo(mmu.phys.mem, mmu.activePt2, vpn + i) == WalkTo(m0, mmu.activePt2, vpn + i)
    requires mapped ==> User(WalkTo(mmu.phys.mem, mmu.activePt2, vpn + i))
    requires FlaggedSoFar(m0, cs0, mmu.phys.mem, mmu.phys.chunks, mmu.activePt2, vpn, i, flags, mapped)
    modifies mmu.phys
    ensures !ok ==> NoneFree(mmu.phys.chunks) && !mapped
    ensures ok ==> mmu.phys.Valid()
    ensures ok ==> FlaggedSoFar(m0, cs0, mmu.phys.mem, mmu.phys.chunks, mmu.activePt2, vpn, i + 1, flags, mapped)
  {
    ghost var m, cs, root := mmu.phys.mem, mmu.phys.chunks, mmu.activePt2;
    ok := SetPageFlags(mmu, vpn + i, flags, mapped);
    if ok { FlagsDone(m0, cs0, m, cs, mmu.phys.mem, mmu.phys.chunks, root, vpn, i, flags, mapped); }
  }

  lemma NextFlags(m0: seq<Page>, m: seq<Page>, root: nat, vpn: nat, i: nat, n: nat, flags: bv8)
    requires i < n && vpn + n <= VPN_LIMIT && UserRange(m0, root, vpn, n) && RangeFlagged(m0, m, root, vpn, i, flags)
    ensures UserSlot(m, root, VPN2(vpn + i)) && WalkTo(m, root, vpn + i) == WalkTo(m0, root, vpn + i)
    ensures MappedRange(m0, root, vpn, n) ==> User(WalkTo(m, root, vpn + i))
  {
    assert UserSlot(m0, root, VPN2(vpn + i));
    assert MappedRange(m0, root, vpn, n) ==> User(WalkTo(m0, root, vpn + i));
  }

  lemma FlagsDone(m0: seq<Page>, cs0: seq<Chunk>, m: seq<Page>, cs: seq<Chunk>, m1: seq<Page>, cs1: seq<Chunk>,
                  root: nat, vpn: nat, i: nat, flags: bv8, mapped: bool)
    requires FlaggedSoFar(m0, cs0, m, cs, root, vpn, i, flags, mapped)
    requires WalkTo(m, root, vpn + i) == WalkTo(m0, root, vpn + i)
    requires OneWalk(m, m1, root, vpn + i, LeafPte(WalkTo(m, root, vpn + i).ppn, flags)) && SameSlots(m, m1, root)
    requires Standing(m1, cs1, root) && TablesGrown(m, cs, m1, cs1, root, {})
    requires mapped ==>
      Owned(m1, cs1, root, ROOT) && Foot(m1, root, ROOT) == Foot(m, root, ROOT) && cs1 == cs
    ensures FlaggedSoFar(m0, cs0, m1, cs1, root, vpn, i + 1, flags, mapped)
  {
    FlagsStep(m0, m, m1, root, vpn, i, flags);
    GrownTwice(m0, cs0, m, cs, m1, cs1, root);
  }

  lemma FlagsStep(m0: seq<Page>, m: seq<Page>, m1: seq<Page>, root: nat, vpn: nat, i: nat, flags: bv8)
    requires RangeFlagged(m0, m, root, vpn, i, flags)
    requires WalkTo(m, root, vpn + i) == WalkTo(m0, root, vpn + i)
    requires OneWalk(m, m1, root, vpn + i, LeafPte(WalkTo(m, root, vpn + i).ppn, flags)) && SameSlots(m, m1, root)
    ensures RangeFlagged(m0, m1, root, vpn, i + 1, flags)
  {
  }

  // one round of the loop of set_range_flags
  method SetPageFlags(mmu: Mmu, vpn: nat, flags: bv8, ghost mapped: bool) returns (ok: bool)
    requires mmu.phys.Valid() && Standing(mmu.phys.mem, mmu.phys.chunks, mmu.activePt2)
    requires vpn < VPN_LIMIT && flags & PTE_G == 0 && UserSlot(mmu.phys.mem, mmu.activePt2, VPN2(vpn))
    requires mapped ==>
      Owned(mmu.phys.mem, mmu.phys.chunks, mmu.activePt2, ROOT) && User(WalkTo(mmu.phys.mem, mmu.activePt2, vpn))
    modifies mmu.phys
    ensures !ok ==> NoneFree(mmu.phys.chunks)
    ensures ok ==> mmu.phys.Valid() && Standing(mmu.phys.mem, mmu.phys.chunks, mmu.activePt2)
    ensures ok ==> OneWalk(old(mmu.phys.mem), mmu.phys.mem, mmu.activePt2, vpn,
                           LeafPte(WalkTo(old(mmu.phys.mem), mmu.activePt2, vpn).ppn, flags))
    ensures ok ==> SameSlots(old(mmu.phys.mem), mmu.phys.mem, mmu.activePt2)
    ensures ok ==>
      TablesGrown(old(mmu.phys.mem), old(mmu.phys.chunks), mmu.phys.mem, mmu.phys.chunks, mmu.activePt2, {})
    ensures mapped ==>
      && ok && mmu.phys.chunks == old(mmu.phys.chunks)
      && Owned(mmu.phys.mem, mmu.phys.chunks, mmu.activePt2, ROOT)
      && Foot(mmu.phys.mem, mmu.activePt2, ROOT) == Foot(old(mmu.phys.mem), mmu.activePt2, ROOT)
  {
    var pt0;
    ghost var root := mmu.activePt2;
    MappedIsReached(mmu.phys.mem, mmu.phys.chunks, root, vpn);
    ok, pt0 := GetLeaf(mmu, vpn, flags);
    if !ok { return; }
    TabsPassed(mmu.phys.mem, root, VPN2(vpn), VPN1(vpn));
    assert WalkTo(mmu.phys.mem, root, vpn) == WalkTo(old(mmu.phys.mem), root, vpn);
    var pp := mmu.phys.mem[pt0].w[VPN0(vpn)].ppn;
    LeafWritten(old(mmu.phys.mem), old(mmu.phys.chunks), mmu.phys.mem, mmu.phys.chunks, root, vpn, LeafPte(pp, flags));
    if mapped { FlagsInTree(mmu.phys.mem, mmu.phys.chunks, root, vpn, flags); }
    mmu.phys.Store(pt0, Words(mmu.phys.mem[pt0].w[VPN0(vpn) := LeafPte(pp, flags)]));
  }

  // The tables on the way to a mapped page exist.
  lemma MappedIsReached(m: seq<Page>, cs: seq<Chunk>, root: nat, vpn: nat)
    requires Standing(m, cs, root) && vpn < VPN_LIMIT && UserSlot(m, root, VPN2(vpn))
    ensures User(WalkTo(m, root, vpn)) ==> Reached(m, root, VPN2(vpn), VPN1(vpn))
  {
    PointerIsUser(NULL);
    assert Apart(m, root, VPN2(vpn), VPN1(vpn), VPN2(vpn), VPN1(vpn));
  }

  lemma FlagsInTree(m: seq<Page>, cs: seq<Chunk>, root: nat, vpn: nat, flags: bv8)
    requires Owned(m, cs, root, ROOT) && vpn < VPN_LIMIT && Reached(m, root, VPN2(vpn), VPN1(vpn)) && flags & PTE_G == 0
    requires UserSlot(m, root, VPN2(vpn)) && User(WalkTo(m, root, vpn))
    ensures var z := Pt0(m, root, VPN2(vpn), VPN1(vpn));
      && IsTable(m, z) && Entry(m, z, VPN0(vpn)) == WalkTo(m, root, vpn)
      && var m1 := Put(m, z, VPN0(vpn), LeafPte(WalkTo(m, root, vpn).ppn, flags));
      && Owned(m1, cs, root, ROOT) && Foot(m1, root, ROOT) == Foot(m, root, ROOT)
  {
    var z := Pt0(m, root, VPN2(vpn), VPN1(vpn));
    Pt0InTree(m, root, VPN2(vpn), VPN1(vpn));
    MappedIsNoTab(m, root, vpn);
    FootInMemory(m, root, ROOT);
    var pp := WalkTo(m, root, vpn).ppn;
    SetLeaf(m, Put(m, z, VPN0(vpn), LeafPte(pp, flags)), root, vpn, pp, flags);
  }

  // A small memory: root table 1, table 2 and table 3 below it, and in table 3 an entry for page 5 that is not
  // valid any more, as unmap_and_free_range leaves it. Pages 4 and 5 are free.
  ghost function WithEntry(e: Word): Page { Words(seq(WORDS_PER_PAGE, _ => ZERO_WORD)[0 := e]) }

  ghost function StaleMemory(flags: bv8): seq<Page> {
    var zero := Words(seq(WORDS_PER_PAGE, _ => ZERO_WORD));
    var stale := Word(flags & !PTE_V, 5, 0);
    [zero, WithEntry(PtabPte(2, 0)), WithEntry(PtabPte(3, 0)), WithEntry(stale), Header(NULL, 2), zero]
  }

  // There set_range_flags makes the stale entry valid again: the space then maps a page that is free.
  lemma StaleEntryRevived(flags: bv8, m1: seq<Page>)
    requires flags & PTE_G == 0 && RangeFlagged(StaleMemory(flags), m1, 1, 0, 1, flags)
    ensures var m0, cs := StaleMemory(flags), [Chunk(4, 2)];
      && Canonical(cs, |m0|) && Linked(m0, 4, cs) && Owned(m0, cs, 1, ROOT) && UserRange(m0, 1, 0, 1)
      && !User(WalkTo(m0, 1, 0)) && User(WalkTo(m1, 1, 0)) && WalkTo(m1, 1, 0).ppn == 5 && Free(cs, 5)
      && !SameMapped(m0, m1, 1)
  {
    StaleSpace(flags);
    StaleTree(flags);
    assert VPN2(0) == 0 && WalkTo(m1, 1, 0) == LeafPte(5, flags);
    LeafPteIsUser(5, flags);
  }

  lemma StaleSpace(flags: bv8)
    ensures var m0, cs := StaleMemory(flags), [Chunk(4, 2)];
      Canonical(cs, |m0|) && Linked(m0, 4, cs) && Owned(m0, cs, 1, ROOT) && Free(cs, 5)
  {
    var cs := [Chunk(4, 2)];
    StaleTree(flags);
    assert cs[0].Has(5);
  }

  lemma StaleTree(flags: bv8)
    ensures var m0 := StaleMemory(flags);
      && Tree(m0, 1, ROOT) && Foot(m0, 1, ROOT) == {1, 2, 3} && User(Entry(m0, 1, 0))
      && WalkTo(m0, 1, 0) == Word(flags & !PTE_V, 5, 0) && !Valid(WalkTo(m0, 1, 0))
  {
    var m0 := StaleMemory(flags);
    PointerIsUser(2);
    PointerIsUser(3);
    assert !Valid(Word(flags & !PTE_V, 5, 0));
    assert forall k: nat :: Sub(m0, 3, 1, k) == {};
    SingleEntry(m0, 2, 2, 3);
    SingleEntry(m0, 1, ROOT, 2);
  }

  // A table whose only entry is its first one, a pointer to the tree c.
  lemma SingleEntry(m: seq<Page>, t: nat, lvl: nat, c: nat)
    requires lvl > 1 && IsTable(m, t) && m[t] == WithEntry(PtabPte(c, 0)) && Tree(m, c, lvl - 1)
    requires t !in Foot(m, c, lvl - 1)
    ensures Tree(m, t, lvl) && Foot(m, t, lvl) == {t} + Foot(m, c, lvl - 1)
  {
    PointerIsUser(c);
    assert Sub(m, t, lvl, 0) == Foot(m, c, lvl - 1);
    forall k: nat | 0 < k < WORDS_PER_PAGE ensures Entry(m, t, k) == ZERO_WORD && Sub(m, t, lvl, k) == {} {}
  }

  // Mapping and setting flags in one space leaves every other space as it is.
  lemma MappingKeepsOthers(m0: seq<Page>, cs0: seq<Chunk>, m1: seq<Page>, cs1: seq<Chunk>, mine: nat, other: nat,
                           run: set<nat>)
    requires Owned(m0, cs0, mine, ROOT) && Owned(m0, cs0, other, ROOT)
    requires Foot(m0, mine, ROOT) !! Foot(m0, other, ROOT)
    requires TablesGrown(m0, cs0, m1, cs1, other, run)
    ensures Owned(m1, cs1, mine, ROOT) && Foot(m1, mine, ROOT) == Foot(m0, mine, ROOT)
    ensures ViewOf(m1, mine, ROOT) == ViewOf(m0, mine, ROOT)
  {
    OwnedStands(m0, cs0, other);
    SpacesAreIndependent(m0, cs0, m1, mine, other);
  }
}
