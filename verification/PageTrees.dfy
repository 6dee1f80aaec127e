// Sv39 page tables of sys/memory.c as trees of pages: which pages a table owns, what it maps, and
// what a change at one entry does to both.

module PageTrees {
  import opened FreeLists

  const PTE_V: bv8 := 0x01
  const PTE_G: bv8 := 0x20
  const PTE_A_D_V: bv8 := 0xC1

  predicate Valid(e: Word) { e.flags & PTE_V != 0 }

  predicate Global(e: Word) { e.flags & PTE_G != 0 }

  // The entries that clone and reset follow.
  predicate User(e: Word) { Valid(e) && !Global(e) }

  function LeafPte(pp: nat, flags: bv8): Word { Word(flags | PTE_A_D_V, pp, 0) }

  function PtabPte(pt: nat, g: bv8): Word { Word(g | PTE_V, pt, 0) }

  predicate IsTable(mem: seq<Page>, t: nat) { t < |mem| && mem[t].Words? }

  function Entry(mem: seq<Page>, t: nat, k: nat): Word {
    if IsTable(mem, t) && k < WORDS_PER_PAGE then mem[t].w[k] else ZERO_WORD
  }

  function Put(mem: seq<Page>, t: nat, k: nat, e: Word): seq<Page>
    requires IsTable(mem, t) && k < WORDS_PER_PAGE
  {
    mem[t := Words(mem[t].w[k := e])]
  }

  // Level 3 is the root table, level 1 the tables whose entries are leaves, level 0 a mapped page.
  const ROOT: nat := 3

  // The pages owned through entry k.
  ghost function Sub(mem: seq<Page>, t: nat, lvl: nat, k: nat): set<nat>
    decreases lvl, 0
  {
    if lvl > 0 && User(Entry(mem, t, k)) then Foot(mem, Entry(mem, t, k).ppn, lvl - 1) else {}
  }

  // All pages owned by a table: itself, and what its non-global entries own.
  ghost function Foot(mem: seq<Page>, t: nat, lvl: nat): set<nat>
    decreases lvl, 1
  {
    {t} + if lvl == 0 then {} else set k: nat, p: nat | k < WORDS_PER_PAGE && p in Sub(mem, t, lvl, k) :: p
  }

  ghost function Others(mem: seq<Page>, t: nat, lvl: nat, k: nat): set<nat> {
    {t} + set l: nat, p: nat | l < WORDS_PER_PAGE && l != k && p in Sub(mem, t, lvl, l) :: p
  }

  ghost predicate EntryOk(mem: seq<Page>, t: nat, lvl: nat, k: nat)
    requires lvl > 0
    decreases lvl, 0
  {
    && (lvl < ROOT && Valid(Entry(mem, t, k)) ==> !Global(Entry(mem, t, k)))
    && (User(Entry(mem, t, k)) ==>
          && Tree(mem, Entry(mem, t, k).ppn, lvl - 1)
          && t !in Sub(mem, t, lvl, k)
          && (lvl == 1 ==> Entry(mem, t, k).flags | PTE_A_D_V == Entry(mem, t, k).flags))
  }

  // The tree invariant: non-global entries above level 1 point to tables, no page is reachable twice.
  ghost predicate Tree(mem: seq<Page>, t: nat, lvl: nat)
    decreases lvl, 1
  {
    && IsTable(mem, t)
    && (lvl > 0 ==>
          && (forall k: nat :: k < WORDS_PER_PAGE ==> EntryOk(mem, t, lvl, k))
          && (forall k: nat, l: nat :: k < l < WORDS_PER_PAGE ==> Sub(mem, t, lvl, k) !! Sub(mem, t, lvl, l)))
  }

  // What an address space maps: for each entry nothing, or flags and what lies below.
  datatype Kid = Absent | Mapped(flags: bv8, view: View)
  datatype View = Data(w: seq<Word>) | Table(kids: map<nat, Kid>)

  ghost function KidOf(mem: seq<Page>, t: nat, lvl: nat, k: nat): Kid
    requires lvl > 0
    decreases lvl, 0
  {
    var e := Entry(mem, t, k);
    if !User(e) then Absent else Mapped(if lvl == 1 then e.flags else PTE_V, ViewOf(mem, e.ppn, lvl - 1))
  }

  ghost function ViewOf(mem: seq<Page>, t: nat, lvl: nat): View
    decreases lvl, 1
  {
    if lvl == 0 then Data(if IsTable(mem, t) then mem[t].w else [])
    else Table(map k: nat | k < WORDS_PER_PAGE :: KidOf(mem, t, lvl, k))
  }

  // The memories agree on the pages of s.
  ghost predicate Agree(m0: seq<Page>, m1: seq<Page>, s: set<nat>) {
    forall p :: p in s ==> p < |m0| && p < |m1| && m0[p] == m1[p]
  }

  lemma SubInFoot(mem: seq<Page>, t: nat, lvl: nat, k: nat)
    requires lvl > 0 && k < WORDS_PER_PAGE
    ensures Sub(mem, t, lvl, k) <= Foot(mem, t, lvl)
  {
  }

  lemma {:induction false} FootInMemory(m: seq<Page>, t: nat, lvl: nat)
    requires Tree(m, t, lvl)
    ensures forall p :: p in Foot(m, t, lvl) ==> IsTable(m, p)
    decreases lvl
  {
    if lvl > 0 {
      forall k: nat, p: nat | k < WORDS_PER_PAGE && p in Sub(m, t, lvl, k) ensures IsTable(m, p) {
        assert EntryOk(m, t, lvl, k);
        FootInMemory(m, Entry(m, t, k).ppn, lvl - 1);
      }
    }
  }

  // A tree, its pages and what it maps depend on the contents of its own pages only.
  lemma {:induction false} Frame(m0: seq<Page>, m1: seq<Page>, t: nat, lvl: nat)
    requires Tree(m0, t, lvl) && Agree(m0, m1, Foot(m0, t, lvl))
    ensures Tree(m1, t, lvl) && Foot(m1, t, lvl) == Foot(m0, t, lvl)
    ensures ViewOf(m1, t, lvl) == ViewOf(m0, t, lvl)
    decreases lvl, 1
  {
    if lvl > 0 {
      forall k: nat | k < WORDS_PER_PAGE
        ensures Entry(m1, t, k) == Entry(m0, t, k) && Sub(m1, t, lvl, k) == Sub(m0, t, lvl, k)
        ensures EntryOk(m1, t, lvl, k) && KidOf(m1, t, lvl, k) == KidOf(m0, t, lvl, k)
      {
        SubInFoot(m0, t, lvl, k);
        FrameEntry(m0, m1, t, lvl, k);
      }
    }
  }

  lemma {:induction false} FrameEntry(m0: seq<Page>, m1: seq<Page>, t: nat, lvl: nat, k: nat)
    requires lvl > 0 && k < WORDS_PER_PAGE && EntryOk(m0, t, lvl, k)
    requires t < |m0| && t < |m1| && Entry(m1, t, k) == Entry(m0, t, k)
    requires Agree(m0, m1, Sub(m0, t, lvl, k))
    ensures Sub(m1, t, lvl, k) == Sub(m0, t, lvl, k)
    ensures EntryOk(m1, t, lvl, k) && KidOf(m1, t, lvl, k) == KidOf(m0, t, lvl, k)
    decreases lvl, 0
  {
    if User(Entry(m0, t, k)) {
      Frame(m0, m1, Entry(m0, t, k).ppn, lvl - 1);
    }
  }

  // Changing entry k, or what lies below it, rebuilds the tree around it.
  lemma {:induction false} Replace(m0: seq<Page>, m1: seq<Page>, t: nat, lvl: nat, k: nat)
    requires lvl > 0 && k < WORDS_PER_PAGE && Tree(m0, t, lvl)
    requires IsTable(m1, t) && forall l: nat :: l < WORDS_PER_PAGE && l != k ==> Entry(m1, t, l) == Entry(m0, t, l)
    requires Agree(m0, m1, Others(m0, t, lvl, k) - {t})
    requires EntryOk(m1, t, lvl, k) && Sub(m1, t, lvl, k) !! Others(m0, t, lvl, k)
    ensures Tree(m1, t, lvl)
    ensures Others(m1, t, lvl, k) == Others(m0, t, lvl, k)
    ensures Foot(m1, t, lvl) == Others(m0, t, lvl, k) + Sub(m1, t, lvl, k)
    ensures forall l: nat :: l < WORDS_PER_PAGE && l != k ==> KidOf(m1, t, lvl, l) == KidOf(m0, t, lvl, l)
  {
    forall l: nat | l < WORDS_PER_PAGE && l != k
      ensures Sub(m1, t, lvl, l) == Sub(m0, t, lvl, l) && EntryOk(m1, t, lvl, l)
      ensures KidOf(m1, t, lvl, l) == KidOf(m0, t, lvl, l)
    {
      assert EntryOk(m0, t, lvl, l);
      forall p | p in Sub(m0, t, lvl, l) ensures p in Others(m0, t, lvl, k) - {t} {}
      FrameEntry(m0, m1, t, lvl, l);
    }
    assert Others(m1, t, lvl, k) == Others(m0, t, lvl, k);
    FootSplit(m1, t, lvl, k);
  }

  lemma FootSplit(mem: seq<Page>, t: nat, lvl: nat, k: nat)
    requires lvl > 0 && k < WORDS_PER_PAGE
    ensures Foot(mem, t, lvl) == Others(mem, t, lvl, k) + Sub(mem, t, lvl, k)
    ensures Tree(mem, t, lvl) ==> Others(mem, t, lvl, k) !! Sub(mem, t, lvl, k)
  {
    if Tree(mem, t, lvl) {
      assert EntryOk(mem, t, lvl, k);
      forall l: nat | l < WORDS_PER_PAGE && l != k ensures Sub(mem, t, lvl, l) !! Sub(mem, t, lvl, k) {
        assert l < k || k < l;
      }
    }
  }

  // The table page itself is kept, but what lies below entry k has been rebuilt.
  lemma RebuildChild(m0: seq<Page>, m1: seq<Page>, t: nat, lvl: nat, k: nat)
    requires lvl > 0 && k < WORDS_PER_PAGE && Tree(m0, t, lvl) && User(Entry(m0, t, k))
    requires var c := Entry(m0, t, k).ppn;
      && Agree(m0, m1, Foot(m0, t, lvl) - Foot(m0, c, lvl - 1))
      && Tree(m1, c, lvl - 1) && Foot(m1, c, lvl - 1) !! Foot(m0, t, lvl) - Foot(m0, c, lvl - 1)
    ensures t < |m1| && m1[t] == m0[t] && Tree(m1, t, lvl)
    ensures var c := Entry(m0, t, k).ppn;
      Foot(m1, t, lvl) == Foot(m0, t, lvl) - Foot(m0, c, lvl - 1) + Foot(m1, c, lvl - 1)
  {
    var c := Entry(m0, t, k).ppn;
    var rest := Foot(m0, t, lvl) - Foot(m0, c, lvl - 1);
    FootSplit(m0, t, lvl, k);
    assert EntryOk(m0, t, lvl, k);
    assert Sub(m0, t, lvl, k) == Foot(m0, c, lvl - 1);
    assert rest == Others(m0, t, lvl, k) && t in rest;
    assert Sub(m1, t, lvl, k) == Foot(m1, c, lvl - 1);
    Replace(m0, m1, t, lvl, k);
  }

  // A zeroed page is a table that owns nothing but itself.
  lemma EmptyTable(mem: seq<Page>, t: nat, lvl: nat)
    requires t < |mem| && ZeroPage(mem[t])
    ensures Tree(mem, t, lvl) && Foot(mem, t, lvl) == {t}
    ensures forall k: nat :: Entry(mem, t, k) == ZERO_WORD
  {
    assert forall k: nat :: Entry(mem, t, k) == ZERO_WORD;
    assert !User(ZERO_WORD);
    assert forall k: nat :: Sub(mem, t, lvl, k) == {};
  }
}
