// The walk through three levels of page tables (Sv39, section 4.4 of the RISC-V Privileged
// Architecture, version 20211203), and what map_range and set_range_flags do to it.

module PageWalks {
  import opened FreeLists
  import opened PageTrees

  // A virtual page number is 27 bits: three indices of 9 bits.
  const VPN_LIMIT: nat := 0x800_0000

  function VPN2(vpn: nat): (i: nat)
    ensures i < WORDS_PER_PAGE
  {
    (vpn / 0x4_0000) % 512
  }

  function VPN1(vpn: nat): (i: nat)
    ensures i < WORDS_PER_PAGE
  {
    (vpn / 0x200) % 512
  }

  function VPN0(vpn: nat): (i: nat)
    ensures i < WORDS_PER_PAGE
  {
    vpn % 512
  }

  lemma VpnParts(u: nat, v: nat)
    requires u < VPN_LIMIT && v < VPN_LIMIT
    ensures VPN2(u) == VPN2(v) && VPN1(u) == VPN1(v) && VPN0(u) == VPN0(v) <==> u == v
  {
    VpnIs(u);
    VpnIs(v);
  }

  lemma VpnIs(u: nat)
    requires u < VPN_LIMIT
    ensures u == 0x4_0000 * VPN2(u) + 0x200 * VPN1(u) + VPN0(u)
  {
    assert u / 0x4_0000 == u / 0x200 / 512;
  }

  // The raw leaf entry a walk ends at; a zero entry if a table is missing on the way.
  ghost function Walk(m: seq<Page>, root: nat, i: nat, j: nat, k: nat): Word {
    var e2 := Entry(m, root, i);
    if !Valid(e2) then ZERO_WORD
    else
      var e1 := Entry(m, e2.ppn, j);
      if !Valid(e1) then ZERO_WORD else Entry(m, e1.ppn, k)
  }

  ghost function WalkTo(m: seq<Page>, root: nat, vpn: nat): Word {
    Walk(m, root, VPN2(vpn), VPN1(vpn), VPN0(vpn))
  }

  // Entry i of the root is not one of the kernel's global mappings.
  predicate UserSlot(m: seq<Page>, root: nat, i: nat) {
    Valid(Entry(m, root, i)) ==> !Global(Entry(m, root, i))
  }

  // Both tables on the way to (i, j, .) exist.
  predicate Reached(m: seq<Page>, root: nat, i: nat, j: nat) {
    User(Entry(m, root, i)) && User(Entry(m, Entry(m, root, i).ppn, j))
  }

  function Pt1(m: seq<Page>, root: nat, i: nat): nat { Entry(m, root, i).ppn }

  function Pt0(m: seq<Page>, root: nat, i: nat, j: nat): nat { Entry(m, Pt1(m, root, i), j).ppn }

  // Both memories lead every walk outside the global entries to the same leaf entry.
  ghost predicate SameWalks(m0: seq<Page>, m1: seq<Page>, root: nat) {
    forall i: nat, j: nat, k: nat {:trigger Walk(m1, root, i, j, k)} ::
      i < WORDS_PER_PAGE && j < WORDS_PER_PAGE && k < WORDS_PER_PAGE && UserSlot(m0, root, i) ==>
        Walk(m1, root, i, j, k) == Walk(m0, root, i, j, k)
  }

  ghost predicate SameSlots(m0: seq<Page>, m1: seq<Page>, root: nat) {
    forall i: nat :: i < WORDS_PER_PAGE ==>
      && (UserSlot(m0, root, i) <==> UserSlot(m1, root, i))
      && (!UserSlot(m0, root, i) ==> Entry(m1, root, i) == Entry(m0, root, i))
  }

  // Tables reached over different entries are different pages.
  lemma TablesDistinct(m: seq<Page>, root: nat, i: nat, j: nat, i': nat, j': nat)
    requires Tree(m, root, ROOT)
    requires i < WORDS_PER_PAGE && j < WORDS_PER_PAGE && i' < WORDS_PER_PAGE && j' < WORDS_PER_PAGE
    requires User(Entry(m, root, i)) && User(Entry(m, root, i'))
    ensures IsTable(m, Pt1(m, root, i)) && Pt1(m, root, i) in Foot(m, root, ROOT) && Pt1(m, root, i) != root
    ensures i != i' ==> Pt1(m, root, i) != Pt1(m, root, i')
    ensures User(Entry(m, Pt1(m, root, i'), j')) ==>
      && IsTable(m, Pt0(m, root, i', j')) && Pt0(m, root, i', j') in Foot(m, root, ROOT)
      && Pt0(m, root, i', j') != root && Pt0(m, root, i', j') != Pt1(m, root, i)
    ensures User(Entry(m, Pt1(m, root, i), j)) && User(Entry(m, Pt1(m, root, i'), j')) && (i, j) != (i', j') ==>
      Pt0(m, root, i, j) != Pt0(m, root, i', j')
  {
    BelowRoot(m, root, i, j);
    BelowRoot(m, root, i', j');
    assert i < i' ==> Sub(m, root, ROOT, i) !! Sub(m, root, ROOT, i');
    assert i' < i ==> Sub(m, root, ROOT, i') !! Sub(m, root, ROOT, i);
    if i == i' {
      assert EntryOk(m, root, ROOT, i);
      var t := Pt1(m, root, i);
      assert j < j' ==> Sub(m, t, 2, j) !! Sub(m, t, 2, j');
      assert j' < j ==> Sub(m, t, 2, j') !! Sub(m, t, 2, j);
    }
  }

  lemma BelowRoot(m: seq<Page>, root: nat, i: nat, j: nat)
    requires Tree(m, root, ROOT) && i < WORDS_PER_PAGE && j < WORDS_PER_PAGE && User(Entry(m, root, i))
    ensures Tree(m, Pt1(m, root, i), 2) && root !in Sub(m, root, ROOT, i)
    ensures Pt1(m, root, i) in Sub(m, root, ROOT, i) && Sub(m, root, ROOT, i) <= Foot(m, root, ROOT)
    ensures Valid(Entry(m, Pt1(m, root, i), j)) ==> User(Entry(m, Pt1(m, root, i), j))
    ensures User(Entry(m, Pt1(m, root, i), j)) ==>
      && Tree(m, Pt0(m, root, i, j), 1)
      && Pt0(m, root, i, j) in Sub(m, Pt1(m, root, i), 2, j)
      && Pt1(m, root, i) !in Sub(m, Pt1(m, root, i), 2, j)
      && Sub(m, Pt1(m, root, i), 2, j) <= Sub(m, root, ROOT, i)
  {
    assert EntryOk(m, root, ROOT, i);
    var t := Pt1(m, root, i);
    assert t in Foot(m, t, 2);
    SubInFoot(m, root, ROOT, i);
    assert EntryOk(m, t, 2, j);
    if User(Entry(m, t, j)) {
      SubInFoot(m, t, 2, j);
      assert Pt0(m, root, i, j) in Foot(m, Pt0(m, root, i, j), 1);
    }
  }

  // The tables that walks outside the global entries may pass.
  ghost predicate Tab(m: seq<Page>, root: nat, p: nat) {
    || p == root
    || (exists i: nat :: i < WORDS_PER_PAGE && User(Entry(m, root, i)) && p == Pt1(m, root, i))
    || (exists i: nat, j: nat ::
          i < WORDS_PER_PAGE && j < WORDS_PER_PAGE && Reached(m, root, i, j) && p == Pt0(m, root, i, j))
  }

  // Tables reached over different entries are different pages; level-1 entries are never global.
  ghost predicate Apart(m: seq<Page>, root: nat, i: nat, j: nat, i': nat, j': nat) {
    User(Entry(m, root, i)) && User(Entry(m, root, i')) ==>
      && IsTable(m, Pt1(m, root, i)) && Pt1(m, root, i) != root
      && (i != i' ==> Pt1(m, root, i) != Pt1(m, root, i'))
      && (Valid(Entry(m, Pt1(m, root, i'), j')) ==>
            && Reached(m, root, i', j') && IsTable(m, Pt0(m, root, i', j'))
            && Pt0(m, root, i', j') != root && Pt0(m, root, i', j') != Pt1(m, root, i)
            && (Reached(m, root, i, j) && (i, j) != (i', j') ==> Pt0(m, root, i, j) != Pt0(m, root, i', j')))
  }

  // The tables of a space are in order, whatever the leaf entries say. (A tree without its leaves.)
  ghost predicate Skeleton(m: seq<Page>, root: nat) {
    && IsTable(m, root)
    && (forall i: nat, j: nat, i': nat, j': nat {:trigger Apart(m, root, i, j, i', j')} ::
          i < WORDS_PER_PAGE && j < WORDS_PER_PAGE && i' < WORDS_PER_PAGE && j' < WORDS_PER_PAGE ==>
            Apart(m, root, i, j, i', j'))
  }

  lemma TabsPassed(m: seq<Page>, root: nat, i: nat, j: nat)
    requires i < WORDS_PER_PAGE && j < WORDS_PER_PAGE && User(Entry(m, root, i))
    ensures Tab(m, root, Pt1(m, root, i)) && (Reached(m, root, i, j) ==> Tab(m, root, Pt0(m, root, i, j)))
  {
  }

  lemma TreeHasSkeleton(m: seq<Page>, root: nat)
    requires Tree(m, root, ROOT)
    ensures Skeleton(m, root) && forall p: nat :: Tab(m, root, p) ==> p in Foot(m, root, ROOT)
  {
    forall i: nat, j: nat, i': nat, j': nat
      | i < WORDS_PER_PAGE && j < WORDS_PER_PAGE && i' < WORDS_PER_PAGE && j' < WORDS_PER_PAGE
      ensures Apart(m, root, i, j, i', j')
    {
      if User(Entry(m, root, i)) && User(Entry(m, root, i')) {
        TablesDistinct(m, root, i, j, i', j');
        BelowRoot(m, root, i', j');
      }
    }
    forall p: nat | Tab(m, root, p) ensures p in Foot(m, root, ROOT) {
      TabInFoot(m, root, p);
    }
  }

  lemma TabInFoot(m: seq<Page>, root: nat, p: nat)
    requires Tree(m, root, ROOT) && Tab(m, root, p)
    ensures p in Foot(m, root, ROOT)
  {
    if p != root {
      if i: nat :| i < WORDS_PER_PAGE && User(Entry(m, root, i)) && p == Pt1(m, root, i) {
        BelowRoot(m, root, i, 0);
      } else {
        var i: nat, j: nat :|
          i < WORDS_PER_PAGE && j < WORDS_PER_PAGE && Reached(m, root, i, j) && p == Pt0(m, root, i, j);
        BelowRoot(m, root, i, j);
      }
    }
  }

  // A page that the space maps is none of its tables.
  lemma MappedIsNoTab(m: seq<Page>, root: nat, vpn: nat)
    requires Tree(m, root, ROOT) && vpn < VPN_LIMIT
    requires UserSlot(m, root, VPN2(vpn)) && User(WalkTo(m, root, vpn))
    ensures !Tab(m, root, WalkTo(m, root, vpn).ppn) && WalkTo(m, root, vpn).ppn in Foot(m, root, ROOT)
  {
    var i, j, k, q := VPN2(vpn), VPN1(vpn), VPN0(vpn), WalkTo(m, root, vpn).ppn;
    assert !User(ZERO_WORD);
    LeafBelow(m, root, i, j, k);
    forall i': nat | i' < WORDS_PER_PAGE && User(Entry(m, root, i')) ensures q != Pt1(m, root, i') {
      LeafNoPt1(m, root, i, i', q);
    }
    forall i': nat, j': nat | i' < WORDS_PER_PAGE && j' < WORDS_PER_PAGE && Reached(m, root, i', j')
      ensures q != Pt0(m, root, i', j')
    {
      LeafElsewhere(m, root, i, j, i', j', q);
    }
  }

  lemma LeafNoPt1(m: seq<Page>, root: nat, i: nat, i': nat, q: nat)
    requires Tree(m, root, ROOT) && i < WORDS_PER_PAGE && i' < WORDS_PER_PAGE
    requires User(Entry(m, root, i')) && q in Sub(m, root, ROOT, i) && q != Pt1(m, root, i)
    ensures q != Pt1(m, root, i')
  {
    BelowRoot(m, root, i', 0);
    assert i < i' ==> Sub(m, root, ROOT, i) !! Sub(m, root, ROOT, i');
    assert i' < i ==> Sub(m, root, ROOT, i') !! Sub(m, root, ROOT, i);
  }

  lemma LeafBelow(m: seq<Page>, root: nat, i: nat, j: nat, k: nat)
    requires Tree(m, root, ROOT) && i < WORDS_PER_PAGE && j < WORDS_PER_PAGE && k < WORDS_PER_PAGE
    requires UserSlot(m, root, i) && User(Walk(m, root, i, j, k))
    ensures Reached(m, root, i, j)
    ensures var q, t, z := Walk(m, root, i, j, k).ppn, Pt1(m, root, i), Pt0(m, root, i, j);
      && q in Sub(m, root, ROOT, i) && q in Sub(m, t, 2, j) && q in Foot(m, root, ROOT)
      && q != root && q != t && q != z
  {
    assert !User(ZERO_WORD);
    BelowRoot(m, root, i, j);
    var z := Pt0(m, root, i, j);
    assert EntryOk(m, z, 1, k);
    var q := Entry(m, z, k).ppn;
    assert q in Foot(m, q, 0);
    SubInFoot(m, z, 1, k);
  }

  lemma LeafElsewhere(m: seq<Page>, root: nat, i: nat, j: nat, i': nat, j': nat, q: nat)
    requires i < WORDS_PER_PAGE && j < WORDS_PER_PAGE && i' < WORDS_PER_PAGE && j' < WORDS_PER_PAGE
    requires Tree(m, root, ROOT) && Reached(m, root, i, j) && Reached(m, root, i', j')
    requires q in Sub(m, root, ROOT, i) && q in Sub(m, Pt1(m, root, i), 2, j) && q != Pt0(m, root, i, j)
    ensures q != Pt0(m, root, i', j')
  {
    BelowRoot(m, root, i, j);
    BelowRoot(m, root, i', j');
    var t := Pt1(m, root, i);
    assert i < i' ==> Sub(m, root, ROOT, i) !! Sub(m, root, ROOT, i');
    assert i' < i ==> Sub(m, root, ROOT, i') !! Sub(m, root, ROOT, i);
    if i == i' {
      assert j < j' ==> Sub(m, t, 2, j) !! Sub(m, t, 2, j');
      assert j' < j ==> Sub(m, t, 2, j') !! Sub(m, t, 2, j);
    }
  }

  // The way to (a, b, .) is the same in both memories.
  ghost predicate SameWay(m: seq<Page>, m1: seq<Page>, root: nat, a: nat, b: nat) {
    && Entry(m1, root, a) == Entry(m, root, a)
    && (User(Entry(m, root, a)) ==> Entry(m1, Pt1(m, root, a), b) == Entry(m, Pt1(m, root, a), b))
  }

  // The tables, other than t, are untouched; c is an empty page that was none of them.
  ghost predicate Beside(m: seq<Page>, m1: seq<Page>, root: nat, t: nat, c: nat) {
    && IsTable(m1, t) && c < |m1| && ZeroPage(m1[c]) && !Tab(m, root, c)
    && (forall p: nat :: Tab(m, root, p) && p != t ==> p < |m| && p < |m1| && m1[p] == m[p])
  }

  // Entry i of table t becomes a pointer to c.
  ghost predicate Hooked(m: seq<Page>, m1: seq<Page>, t: nat, i: nat, c: nat) {
    forall l: nat :: l < WORDS_PER_PAGE ==> Entry(m1, t, l) == if l == i then PtabPte(c, 0) else Entry(m, t, l)
  }

  lemma PointerIsUser(c: nat)
    ensures User(PtabPte(c, 0)) && PtabPte(c, 0).flags == PTE_V && !User(ZERO_WORD) && !Valid(ZERO_WORD)
  {
  }

  // A new empty table below an unused root entry: the walks stay.
  lemma HangBelowRoot(m: seq<Page>, m1: seq<Page>, root: nat, i: nat, c: nat)
    requires Skeleton(m, root) && i < WORDS_PER_PAGE && !Valid(Entry(m, root, i))
    requires Beside(m, m1, root, root, c) && Hooked(m, m1, root, i, c)
    ensures Skeleton(m1, root) && SameWalks(m, m1, root) && SameSlots(m, m1, root) && User(Entry(m1, root, i))
    ensures forall p: nat :: Tab(m1, root, p) <==> Tab(m, root, p) || p == c
  {
    PointerIsUser(c);
    forall a: nat, b: nat | a < WORDS_PER_PAGE && b < WORDS_PER_PAGE
      ensures a != i ==> SameWay(m, m1, root, a, b)
      ensures Entry(m1, c, b) == ZERO_WORD
    {
      if a != i && User(Entry(m, root, a)) { TabsPassed(m, root, a, b); assert Apart(m, root, a, b, a, b); }
    }
    HangRootApart(m, m1, root, i, c);
    HangRootWalks(m, m1, root, i, c);
    HangRootTabs(m, m1, root, i, c);
  }

  lemma HangRootApart(m: seq<Page>, m1: seq<Page>, root: nat, i: nat, c: nat)
    requires Skeleton(m, root) && i < WORDS_PER_PAGE && !Valid(Entry(m, root, i))
    requires Beside(m, m1, root, root, c) && Hooked(m, m1, root, i, c)
    requires forall a: nat, b: nat :: a < WORDS_PER_PAGE && b < WORDS_PER_PAGE && a != i ==> SameWay(m, m1, root, a, b)
    ensures Skeleton(m1, root)
  {
    PointerIsUser(c);
    forall a: nat, b: nat, a': nat, b': nat
      | a < WORDS_PER_PAGE && b < WORDS_PER_PAGE && a' < WORDS_PER_PAGE && b' < WORDS_PER_PAGE
      ensures Apart(m1, root, a, b, a', b')
    {
      assert Apart(m, root, a, b, a', b') && Apart(m, root, a', b', a, b);
      assert Apart(m, root, a, b, a, b) && Apart(m, root, a', b', a', b');
      if User(Entry(m, root, a)) { TabsPassed(m, root, a, b); assert SameWay(m, m1, root, a, b); }
      if User(Entry(m, root, a')) { TabsPassed(m, root, a', b'); assert SameWay(m, m1, root, a', b'); }
    }
  }

  lemma HangRootWalks(m: seq<Page>, m1: seq<Page>, root: nat, i: nat, c: nat)
    requires Skeleton(m, root) && i < WORDS_PER_PAGE && !Valid(Entry(m, root, i))
    requires Beside(m, m1, root, root, c) && Hooked(m, m1, root, i, c)
    requires forall a: nat, b: nat :: a < WORDS_PER_PAGE && b < WORDS_PER_PAGE && a != i ==> SameWay(m, m1, root, a, b)
    ensures SameWalks(m, m1, root)
  {
    PointerIsUser(c);
    forall a: nat, b: nat, d: nat
      | a < WORDS_PER_PAGE && b < WORDS_PER_PAGE && d < WORDS_PER_PAGE && UserSlot(m, root, a)
      ensures Walk(m1, root, a, b, d) == Walk(m, root, a, b, d)
    {
      if a != i && Valid(Entry(m, root, a)) {
        assert SameWay(m, m1, root, a, b) && Apart(m, root, a, b, a, b);
        TabsPassed(m, root, a, b);
      }
    }
  }

  lemma HangRootTabs(m: seq<Page>, m1: seq<Page>, root: nat, i: nat, c: nat)
    requires i < WORDS_PER_PAGE && !Valid(Entry(m, root, i))
    requires Beside(m, m1, root, root, c) && Hooked(m, m1, root, i, c)
    requires forall a: nat, b: nat :: a < WORDS_PER_PAGE && b < WORDS_PER_PAGE && a != i ==> SameWay(m, m1, root, a, b)
    ensures forall p: nat :: Tab(m1, root, p) <==> Tab(m, root, p) || p == c
  {
    PointerIsUser(c);
    TabsPassed(m1, root, i, 0);
    forall p: nat | Tab(m, root, p) && p != root ensures Tab(m1, root, p) {
      if a: nat :| a < WORDS_PER_PAGE && User(Entry(m, root, a)) && p == Pt1(m, root, a) {
        assert SameWay(m, m1, root, a, 0);
        TabsPassed(m1, root, a, 0);
      } else {
        var a: nat, b: nat :|
          a < WORDS_PER_PAGE && b < WORDS_PER_PAGE && Reached(m, root, a, b) && p == Pt0(m, root, a, b);
        assert SameWay(m, m1, root, a, b);
        TabsPassed(m1, root, a, b);
      }
    }
    forall p: nat | Tab(m1, root, p) && p != root && p != c ensures Tab(m, root, p) {
      if a: nat :| a < WORDS_PER_PAGE && User(Entry(m1, root, a)) && p == Pt1(m1, root, a) {
        assert SameWay(m, m1, root, a, 0);
        TabsPassed(m, root, a, 0);
      } else {
        var a: nat, b: nat :|
          a < WORDS_PER_PAGE && b < WORDS_PER_PAGE && Reached(m1, root, a, b) && p == Pt0(m1, root, a, b);
        assert SameWay(m, m1, root, a, b);
        TabsPassed(m, root, a, b);
      }
    }
  }

  // A new empty table below an unused entry of a level-1 table: the walks stay.
  lemma HangBelowPt1(m: seq<Page>, m1: seq<Page>, root: nat, i: nat, j: nat, c: nat)
    requires Skeleton(m, root) && i < WORDS_PER_PAGE && j < WORDS_PER_PAGE
    requires User(Entry(m, root, i)) && !Valid(Entry(m, Pt1(m, root, i), j))
    requires Beside(m, m1, root, Pt1(m, root, i), c) && Hooked(m, m1, Pt1(m, root, i), j, c)
    ensures Skeleton(m1, root) && SameWalks(m, m1, root) && SameSlots(m, m1, root)
    ensures Reached(m1, root, i, j) && Pt1(m1, root, i) == Pt1(m, root, i)
    ensures forall p: nat :: Tab(m1, root, p) <==> Tab(m, root, p) || p == c
  {
    PointerIsUser(c);
    assert Apart(m, root, i, j, i, j);
    forall a: nat, b: nat | a < WORDS_PER_PAGE && b < WORDS_PER_PAGE
      ensures Entry(m1, root, a) == Entry(m, root, a)
      ensures (a, b) != (i, j) ==> SameWay(m, m1, root, a, b)
      ensures Entry(m1, c, b) == ZERO_WORD
    {
      assert Tab(m, root, root);
      if User(Entry(m, root, a)) { TabsPassed(m, root, a, b); assert Apart(m, root, a, b, i, j); }
    }
    HangPt1Apart(m, m1, root, i, j, c);
    HangPt1Walks(m, m1, root, i, j, c);
    HangPt1Tabs(m, m1, root, i, j, c);
  }

  // All ways but the one to (i, j, .) are the same; that one did not exist and now ends at c.
  ghost predicate OneWayMore(m: seq<Page>, m1: seq<Page>, root: nat, i: nat, j: nat, c: nat) {
    && User(Entry(m, root, i)) && !Valid(Entry(m, Pt1(m, root, i), j))
    && (forall a: nat :: a < WORDS_PER_PAGE ==> Entry(m1, root, a) == Entry(m, root, a))
    && (forall a: nat, b: nat :: a < WORDS_PER_PAGE && b < WORDS_PER_PAGE && (a, b) != (i, j) ==>
          SameWay(m, m1, root, a, b))
    && Entry(m1, Pt1(m, root, i), j) == PtabPte(c, 0)
  }

  lemma HangPt1Apart(m: seq<Page>, m1: seq<Page>, root: nat, i: nat, j: nat, c: nat)
    requires Skeleton(m, root) && i < WORDS_PER_PAGE && j < WORDS_PER_PAGE && OneWayMore(m, m1, root, i, j, c)
    requires Beside(m, m1, root, Pt1(m, root, i), c)
    ensures Skeleton(m1, root)
  {
    PointerIsUser(c);
    assert Apart(m, root, i, j, i, j) && Tab(m, root, root);
    forall a: nat, b: nat, a': nat, b': nat
      | a < WORDS_PER_PAGE && b < WORDS_PER_PAGE && a' < WORDS_PER_PAGE && b' < WORDS_PER_PAGE
      ensures Apart(m1, root, a, b, a', b')
    {
      assert Apart(m, root, a, b, a', b') && Apart(m, root, a', b', a, b);
      assert Apart(m, root, a, b, a, b) && Apart(m, root, a', b', a', b');
      assert (a, b) != (i, j) ==> SameWay(m, m1, root, a, b);
      assert (a', b') != (i, j) ==> SameWay(m, m1, root, a', b');
      if User(Entry(m, root, a)) { TabsPassed(m, root, a, b); }
      if User(Entry(m, root, a')) { TabsPassed(m, root, a', b'); }
    }
  }

  lemma HangPt1Walks(m: seq<Page>, m1: seq<Page>, root: nat, i: nat, j: nat, c: nat)
    requires Skeleton(m, root) && i < WORDS_PER_PAGE && j < WORDS_PER_PAGE && OneWayMore(m, m1, root, i, j, c)
    requires Beside(m, m1, root, Pt1(m, root, i), c)
    ensures SameWalks(m, m1, root)
  {
    PointerIsUser(c);
    forall a: nat, b: nat, d: nat
      | a < WORDS_PER_PAGE && b < WORDS_PER_PAGE && d < WORDS_PER_PAGE && UserSlot(m, root, a)
      ensures Walk(m1, root, a, b, d) == Walk(m, root, a, b, d)
    {
      if (a, b) != (i, j) && Valid(Entry(m, root, a)) {
        assert SameWay(m, m1, root, a, b) && Apart(m, root, i, j, a, b);
        TabsPassed(m, root, a, b);
      }
    }
  }

  lemma HangPt1Tabs(m: seq<Page>, m1: seq<Page>, root: nat, i: nat, j: nat, c: nat)
    requires i < WORDS_PER_PAGE && j < WORDS_PER_PAGE && OneWayMore(m, m1, root, i, j, c)
    ensures forall p: nat :: Tab(m1, root, p) <==> Tab(m, root, p) || p == c
  {
    PointerIsUser(c);
    TabsPassed(m1, root, i, j);
    forall p: nat | Tab(m, root, p) && p != root ensures Tab(m1, root, p) {
      if a: nat :| a < WORDS_PER_PAGE && User(Entry(m, root, a)) && p == Pt1(m, root, a) {
        TabsPassed(m1, root, a, 0);
      } else {
        var a: nat, b: nat :|
          a < WORDS_PER_PAGE && b < WORDS_PER_PAGE && Reached(m, root, a, b) && p == Pt0(m, root, a, b);
        assert SameWay(m, m1, root, a, b);
        TabsPassed(m1, root, a, b);
      }
    }
    forall p: nat | Tab(m1, root, p) && p != root && p != c ensures Tab(m, root, p) {
      if a: nat :| a < WORDS_PER_PAGE && User(Entry(m1, root, a)) && p == Pt1(m1, root, a) {
        TabsPassed(m, root, a, 0);
      } else {
        var a: nat, b: nat :|
          a < WORDS_PER_PAGE && b < WORDS_PER_PAGE && Reached(m1, root, a, b) && p == Pt0(m1, root, a, b);
        assert SameWay(m, m1, root, a, b);
        TabsPassed(m, root, a, b);
      }
    }
  }

  // Every walk outside the global entries is kept, except that vpn now ends at w.
  ghost predicate OneWalk(m: seq<Page>, m1: seq<Page>, root: nat, vpn: nat, w: Word) {
    forall v: nat {:trigger WalkTo(m1, root, v)} :: v < VPN_LIMIT && UserSlot(m, root, VPN2(v)) ==>
      WalkTo(m1, root, v) == if v == vpn then w else WalkTo(m, root, v)
  }

  // Writing any word into a leaf entry: that walk changes and no other, and the tables stay.
  lemma SetLeafWalks(m: seq<Page>, m1: seq<Page>, root: nat, vpn: nat, w: Word)
    requires Skeleton(m, root) && vpn < VPN_LIMIT && Reached(m, root, VPN2(vpn), VPN1(vpn))
    requires var z := Pt0(m, root, VPN2(vpn), VPN1(vpn)); IsTable(m, z) && m1 == Put(m, z, VPN0(vpn), w)
    ensures Skeleton(m1, root) && SameSlots(m, m1, root) && OneWalk(m, m1, root, vpn, w)
    ensures forall p: nat :: Tab(m1, root, p) <==> Tab(m, root, p)
  {
    var i, j := VPN2(vpn), VPN1(vpn);
    forall a: nat, b: nat | a < WORDS_PER_PAGE && b < WORDS_PER_PAGE ensures SameWay(m, m1, root, a, b) {
      assert Apart(m, root, i, j, i, j) && Apart(m, root, a, b, i, j);
    }
    SameWaysTabs(m, m1, root);
    SameWaysApart(m, m1, root);
    forall v: nat | v < VPN_LIMIT && UserSlot(m, root, VPN2(v))
      ensures WalkTo(m1, root, v) == if v == vpn then w else WalkTo(m, root, v)
    {
      VpnParts(v, vpn);
      assert SameWay(m, m1, root, VPN2(v), VPN1(v)) && Apart(m, root, VPN2(v), VPN1(v), i, j);
      assert Apart(m, root, VPN2(v), VPN1(v), VPN2(v), VPN1(v));
    }
    forall a: nat | a < WORDS_PER_PAGE ensures Entry(m1, root, a) == Entry(m, root, a) {
      assert SameWay(m, m1, root, a, 0);
    }
  }

  lemma SameWaysTabs(m: seq<Page>, m1: seq<Page>, root: nat)
    requires forall a: nat, b: nat :: a < WORDS_PER_PAGE && b < WORDS_PER_PAGE ==> SameWay(m, m1, root, a, b)
    ensures forall p: nat :: Tab(m1, root, p) <==> Tab(m, root, p)
  {
    forall p: nat | p != root ensures Tab(m1, root, p) <==> Tab(m, root, p) {
      if a: nat :| a < WORDS_PER_PAGE && User(Entry(m, root, a)) && p == Pt1(m, root, a) {
        assert SameWay(m, m1, root, a, 0);
        TabsPassed(m1, root, a, 0);
      }
      if a: nat :| a < WORDS_PER_PAGE && User(Entry(m1, root, a)) && p == Pt1(m1, root, a) {
        assert SameWay(m, m1, root, a, 0);
        TabsPassed(m, root, a, 0);
      }
      if a: nat, b: nat :|
        a < WORDS_PER_PAGE && b < WORDS_PER_PAGE && Reached(m, root, a, b) && p == Pt0(m, root, a, b) {
        assert SameWay(m, m1, root, a, b);
        TabsPassed(m1, root, a, b);
      }
      if a: nat, b: nat :|
        a < WORDS_PER_PAGE && b < WORDS_PER_PAGE && Reached(m1, root, a, b) && p == Pt0(m1, root, a, b) {
        assert SameWay(m, m1, root, a, b);
        TabsPassed(m, root, a, b);
      }
    }
  }

  lemma SameWaysApart(m: seq<Page>, m1: seq<Page>, root: nat)
    requires Skeleton(m, root) && |m1| == |m| && forall p :: 0 <= p < |m| ==> (IsTable(m, p) ==> IsTable(m1, p))
    requires forall a: nat, b: nat :: a < WORDS_PER_PAGE && b < WORDS_PER_PAGE ==> SameWay(m, m1, root, a, b)
    ensures Skeleton(m1, root)
  {
    forall a: nat, b: nat, a': nat, b': nat
      | a < WORDS_PER_PAGE && b < WORDS_PER_PAGE && a' < WORDS_PER_PAGE && b' < WORDS_PER_PAGE
      ensures Apart(m1, root, a, b, a', b')
    {
      assert Apart(m, root, a, b, a', b') && SameWay(m, m1, root, a, b) && SameWay(m, m1, root, a', b');
    }
  }

  // What happens to a tree whose skeleton changes like this.

  lemma HangRootTree(m: seq<Page>, m1: seq<Page>, root: nat, i: nat, c: nat)
    requires Tree(m, root, ROOT) && i < WORDS_PER_PAGE && !Valid(Entry(m, root, i))
    requires IsTable(m1, root) && c < |m1| && ZeroPage(m1[c]) && c !in Foot(m, root, ROOT)
    requires Hooked(m, m1, root, i, c) && Agree(m, m1, Foot(m, root, ROOT) - {root})
    ensures Tree(m1, root, ROOT) && Foot(m1, root, ROOT) == Foot(m, root, ROOT) + {c}
  {
    PointerIsUser(c);
    EmptyTable(m1, c, 2);
    FootSplit(m, root, ROOT, i);
    assert Sub(m1, root, ROOT, i) == {c};
    Replace(m, m1, root, ROOT, i);
  }

  lemma HangPt1Tree(m: seq<Page>, m1: seq<Page>, root: nat, i: nat, j: nat, c: nat)
    requires Tree(m, root, ROOT) && i < WORDS_PER_PAGE && j < WORDS_PER_PAGE
    requires User(Entry(m, root, i)) && !Valid(Entry(m, Pt1(m, root, i), j))
    requires c < |m1| && ZeroPage(m1[c]) && c !in Foot(m, root, ROOT)
    requires IsTable(m1, Pt1(m, root, i)) && Hooked(m, m1, Pt1(m, root, i), j, c)
    requires Agree(m, m1, Foot(m, root, ROOT) - {Pt1(m, root, i)})
    ensures Tree(m1, root, ROOT) && Foot(m1, root, ROOT) == Foot(m, root, ROOT) + {c}
  {
    HangInPt1(m, m1, root, i, j, c);
    RebuildChild(m, m1, root, ROOT, i);
  }

  lemma HangInPt1(m: seq<Page>, m1: seq<Page>, root: nat, i: nat, j: nat, c: nat)
    requires Tree(m, root, ROOT) && i < WORDS_PER_PAGE && j < WORDS_PER_PAGE
    requires User(Entry(m, root, i)) && !Valid(Entry(m, Pt1(m, root, i), j))
    requires c < |m1| && ZeroPage(m1[c]) && c !in Foot(m, root, ROOT)
    requires IsTable(m1, Pt1(m, root, i)) && Hooked(m, m1, Pt1(m, root, i), j, c)
    requires Agree(m, m1, Foot(m, root, ROOT) - {Pt1(m, root, i)})
    ensures var t := Pt1(m, root, i);
      && Tree(m1, t, 2) && Foot(m1, t, 2) == Foot(m, t, 2) + {c}
      && t in Foot(m, t, 2) && Foot(m, t, 2) <= Foot(m, root, ROOT)
      && root in Foot(m, root, ROOT) - {t}
  {
    var t := Pt1(m, root, i);
    PointerIsUser(c);
    EmptyTable(m1, c, 1);
    BelowRoot(m, root, i, j);
    FootSplit(m, t, 2, j);
    assert Sub(m1, t, 2, j) == {c};
    Replace(m, m1, t, 2, j);
  }

  // What lies below the level-0 table of (i, j) has been rebuilt; the tree around it is kept.
  lemma RebuildPt0(m: seq<Page>, m1: seq<Page>, root: nat, i: nat, j: nat)
    requires Tree(m, root, ROOT) && i < WORDS_PER_PAGE && j < WORDS_PER_PAGE && Reached(m, root, i, j)
    requires var z := Pt0(m, root, i, j);
      && Agree(m, m1, Foot(m, root, ROOT) - Foot(m, z, 1))
      && Tree(m1, z, 1) && Foot(m1, z, 1) !! Foot(m, root, ROOT) - Foot(m, z, 1)
    ensures Tree(m1, root, ROOT)
    ensures var z := Pt0(m, root, i, j);
      Foot(m1, root, ROOT) == Foot(m, root, ROOT) - Foot(m, z, 1) + Foot(m1, z, 1)
    ensures forall l: nat :: Entry(m1, root, l) == Entry(m, root, l)
    ensures forall l: nat :: Entry(m1, Pt1(m, root, i), l) == Entry(m, Pt1(m, root, i), l)
  {
    var t, z := Pt1(m, root, i), Pt0(m, root, i, j);
    BelowRoot(m, root, i, j);
    Shrinking(m, m1, Foot(m, root, ROOT), Foot(m, t, 2), Foot(m, z, 1), Foot(m1, z, 1));
    RebuildPt1(m, m1, t, j, z);
    RebuildChild(m, m1, root, ROOT, i);
  }

  lemma RebuildPt1(m: seq<Page>, m1: seq<Page>, t: nat, j: nat, z: nat)
    requires j < WORDS_PER_PAGE && Tree(m, t, 2) && User(Entry(m, t, j)) && Entry(m, t, j).ppn == z
    requires Agree(m, m1, Foot(m, t, 2) - Foot(m, z, 1))
    requires Tree(m1, z, 1) && Foot(m1, z, 1) !! Foot(m, t, 2) - Foot(m, z, 1)
    ensures t < |m1| && m1[t] == m[t] && Tree(m1, t, 2)
    ensures Foot(m1, t, 2) == Foot(m, t, 2) - Foot(m, z, 1) + Foot(m1, z, 1)
  {
    RebuildChild(m, m1, t, 2, j);
  }

  // Set facts for a footprint f with the nested footprints ft and fz, when fz becomes gz.
  lemma Shrinking(m: seq<Page>, m1: seq<Page>, f: set<nat>, ft: set<nat>, fz: set<nat>, gz: set<nat>)
    requires fz <= ft <= f && Agree(m, m1, f - fz) && gz !! f - fz
    ensures Agree(m, m1, ft - fz) && gz !! ft - fz
    ensures Agree(m, m1, f - ft) && ft - fz + gz !! f - ft
    ensures f - ft + (ft - fz + gz) == f - fz + gz
  {
    forall p | p in ft - fz ensures p in f - fz {}
    forall p | p in f - ft ensures p in f - fz {}
  }

  lemma Pt0InTree(m: seq<Page>, root: nat, i: nat, j: nat)
    requires Tree(m, root, ROOT) && i < WORDS_PER_PAGE && j < WORDS_PER_PAGE && Reached(m, root, i, j)
    ensures var z := Pt0(m, root, i, j);
      IsTable(m, z) && Tree(m, z, 1) && z in Foot(m, root, ROOT) && Foot(m, z, 1) <= Foot(m, root, ROOT)
  {
    BelowRoot(m, root, i, j);
  }

  // Writing a leaf entry.
  lemma SetLeaf(m: seq<Page>, m1: seq<Page>, root: nat, vpn: nat, pp: nat, flags: bv8)
    requires Tree(m, root, ROOT) && vpn < VPN_LIMIT && Reached(m, root, VPN2(vpn), VPN1(vpn))
    requires IsTable(m, pp) && flags & PTE_G == 0
    requires pp !in Foot(m, root, ROOT) || (User(WalkTo(m, root, vpn)) && WalkTo(m, root, vpn).ppn == pp)
    requires var z := Pt0(m, root, VPN2(vpn), VPN1(vpn));
      IsTable(m, z) && m1 == Put(m, z, VPN0(vpn), LeafPte(pp, flags))
    ensures Tree(m1, root, ROOT) && Foot(m1, root, ROOT) <= Foot(m, root, ROOT) + {pp}
    ensures pp in Foot(m, root, ROOT) ==> Foot(m1, root, ROOT) == Foot(m, root, ROOT)
    ensures SameSlots(m, m1, root) && OneWalk(m, m1, root, vpn, LeafPte(pp, flags))
  {
    TreeHasSkeleton(m, root);
    SetLeafTree(m, m1, root, vpn, pp, flags);
    SetLeafWalks(m, m1, root, vpn, LeafPte(pp, flags));
  }

  lemma SetLeafTree(m: seq<Page>, m1: seq<Page>, root: nat, vpn: nat, pp: nat, flags: bv8)
    requires Tree(m, root, ROOT) && vpn < VPN_LIMIT && Reached(m, root, VPN2(vpn), VPN1(vpn))
    requires IsTable(m, pp) && flags & PTE_G == 0
    requires pp !in Foot(m, root, ROOT) || (User(WalkTo(m, root, vpn)) && WalkTo(m, root, vpn).ppn == pp)
    requires var z := Pt0(m, root, VPN2(vpn), VPN1(vpn));
      IsTable(m, z) && m1 == Put(m, z, VPN0(vpn), LeafPte(pp, flags))
    ensures Tree(m1, root, ROOT) && Foot(m1, root, ROOT) <= Foot(m, root, ROOT) + {pp}
    ensures pp in Foot(m, root, ROOT) ==> Foot(m1, root, ROOT) == Foot(m, root, ROOT)
  {
    var i, j := VPN2(vpn), VPN1(vpn);
    var z := Pt0(m, root, i, j);
    Pt0InTree(m, root, i, j);
    SetLeafTable(m, z, VPN0(vpn), pp, flags, Foot(m, root, ROOT));
    AgreeOff(m, m1, root, Foot(m, z, 1));
    RebuildPt0(m, m1, root, i, j);
  }

  lemma AgreeOff(m: seq<Page>, m1: seq<Page>, root: nat, s: set<nat>)
    requires Tree(m, root, ROOT) && |m1| == |m|
    requires forall p :: 0 <= p < |m| && p !in s ==> m1[p] == m[p]
    ensures Agree(m, m1, Foot(m, root, ROOT) - s)
  {
    FootInMemory(m, root, ROOT);
  }

  lemma SetLeafTable(m: seq<Page>, z: nat, k: nat, pp: nat, flags: bv8, f: set<nat>)
    requires Tree(m, z, 1) && k < WORDS_PER_PAGE && IsTable(m, pp) && flags & PTE_G == 0
    requires Foot(m, z, 1) <= f
    requires pp !in f || (User(Entry(m, z, k)) && Entry(m, z, k).ppn == pp)
    ensures var m1 := Put(m, z, k, LeafPte(pp, flags));
      && z in f && Tree(m1, z, 1) && Foot(m1, z, 1) <= Foot(m, z, 1) + {pp} && Foot(m1, z, 1) !! f - Foot(m, z, 1)
      && (pp in f ==> Foot(m1, z, 1) == Foot(m, z, 1))
      && (forall p :: 0 <= p < |m| && p !in Foot(m, z, 1) ==> m1[p] == m[p])
  {
    var e := LeafPte(pp, flags);
    var m1 := Put(m, z, k, e);
    assert User(e) && e.flags | PTE_A_D_V == e.flags;
    assert EntryOk(m, z, 1, k);
    FootSplit(m, z, 1, k);
    FootInMemory(m, z, 1);
    if User(Entry(m, z, k)) && Entry(m, z, k).ppn == pp {
      assert Sub(m, z, 1, k) == {pp};
    }
    assert pp !in Others(m, z, 1, k) && z in Others(m, z, 1, k);
    assert Sub(m1, z, 1, k) == {pp};
    Replace(m, m1, z, 1, k);
  }
}
