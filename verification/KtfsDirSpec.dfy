// The root directory of sys/ktfs.c as a function of the root inode's bytes, and the changes that
// creating and deleting make to a volume.

module KtfsDirSpec {
  import opened LittleEndian
  import opened Sequences
  import opened KtfsLayout
  import opened KtfsOwners
  import opened KtfsGrowth
  import opened KtfsContent

  const DENSZ: nat := 16

  datatype Dentry = Dentry(ino: nat, name: seq<Byte>)

  // A C string: the bytes before the first NUL.
  function CStr(s: seq<Byte>): seq<Byte> {
    if |s| == 0 || s[0] == 0 then [] else [s[0]] + CStr(s[1..])
  }

  // struct ktfs_dir_entry: a 16-bit inode number and a NUL-terminated name of 14 bytes.
  function DentryOf(s: seq<Byte>): Dentry
    requires |s| == DENSZ
  {
    Dentry(s[0] as nat + 0x100 * (s[1] as nat), CStr(s[2..]))
  }

  predicate ValidName(name: seq<Byte>) {
    1 <= |name| <= 13 && forall i :: 0 <= i < |name| ==> name[i] != 0
  }

  // The bytes an entry is written with: the number, the name and its NUL; what follows stays.
  function EntryBytes(ino: nat, name: seq<Byte>): (s: seq<Byte>)
    requires ino < 0x1_0000
    ensures |s| == |name| + 3
  {
    var number: seq<Byte> := [ino % 0x100, ino / 0x100];
    number + name + [0]
  }

  function DentryAt(c: seq<Byte>, e: nat): Dentry
    requires DENSZ * e + DENSZ <= |c|
  {
    DentryOf(c[DENSZ * e..DENSZ * e + DENSZ])
  }

  // The directory: its entries in order.
  function Dir(c: seq<Byte>): (dir: seq<Dentry>)
    ensures |dir| == |c| / DENSZ
    ensures forall e :: 0 <= e < |dir| ==> dir[e] == DentryAt(c, e)
  {
    seq(|c| / DENSZ, e requires 0 <= e < |c| / DENSZ => DentryAt(c, e))
  }

  // Names are proper and unique, and each entry has an inode of its own.
  ghost predicate DirOk(dir: seq<Dentry>) {
    && (forall e :: 0 <= e < |dir| ==> ValidName(dir[e].name))
    && (forall e, f :: 0 <= e < f < |dir| ==> dir[e].name != dir[f].name && dir[e].ino != dir[f].ino)
  }

  ghost function Inos(dir: seq<Dentry>): set<nat> {
    set e | 0 <= e < |dir| :: dir[e].ino
  }

  // The entry a lookup finds: the first with that name, or none.
  function Find(dir: seq<Dentry>, name: seq<Byte>): (e: nat)
    ensures e <= |dir| && (e < |dir| ==> dir[e].name == name)
    ensures forall k :: 0 <= k < e ==> dir[k].name != name
  {
    if |dir| == 0 || dir[0].name == name then 0 else 1 + Find(dir[1..], name)
  }

  ghost function NameSet(dir: seq<Dentry>): set<seq<Byte>> {
    set e | 0 <= e < |dir| :: dir[e].name
  }

  // The finite map that a directory stands for.
  ghost function Names(dir: seq<Dentry>): map<seq<Byte>, nat> {
    map name | name in NameSet(dir) && Find(dir, name) < |dir| :: dir[Find(dir, name)].ino
  }

  lemma NamesIs(dir: seq<Dentry>, name: seq<Byte>, ino: nat)
    requires DirOk(dir)
    ensures name in Names(dir) && Names(dir)[name] == ino
      <==> exists e :: 0 <= e < |dir| && dir[e] == Dentry(ino, name)
  {
    var f := Find(dir, name);
    if f < |dir| {
      assert dir[f].name in NameSet(dir);
      assert dir[f] == Dentry(dir[f].ino, name);
    }
  }

  // Two directories with the same entries, apart from one name, are the same map apart from that name.
  ghost predicate SameBut(dir: seq<Dentry>, dir1: seq<Dentry>, gone: seq<Byte>) {
    && (forall e :: 0 <= e < |dir1| ==> dir1[e] in dir && dir1[e].name != gone)
    && (forall e :: 0 <= e < |dir| && dir[e].name != gone ==> dir[e] in dir1)
  }

  lemma NamesDiffer(dir: seq<Dentry>, dir1: seq<Dentry>, gone: seq<Byte>)
    requires DirOk(dir) && DirOk(dir1) && SameBut(dir, dir1, gone)
    ensures Names(dir1) == Names(dir) - {gone}
  {
    forall name
      ensures name in Names(dir1) <==> name in Names(dir) && name != gone
      ensures name in Names(dir1) ==> Names(dir1)[name] == Names(dir)[name]
    {
      NamesMove(dir, dir1, gone, name);
    }
    SameMap(Names(dir1), Names(dir), gone);
  }

  lemma SameMap(a: map<seq<Byte>, nat>, b: map<seq<Byte>, nat>, gone: seq<Byte>)
    requires forall name :: name in a <==> name in b && name != gone
    requires forall name :: name in a ==> a[name] == b[name]
    ensures a == b - {gone}
  {
  }

  lemma NamesMove(dir: seq<Dentry>, dir1: seq<Dentry>, gone: seq<Byte>, name: seq<Byte>)
    requires DirOk(dir) && DirOk(dir1) && SameBut(dir, dir1, gone)
    ensures name in Names(dir1) <==> name in Names(dir) && name != gone
    ensures name in Names(dir1) ==> Names(dir1)[name] == Names(dir)[name]
  {
    var f, g := Find(dir, name), Find(dir1, name);
    if g < |dir1| {
      NamesIs(dir1, name, dir1[g].ino);
      var e :| 0 <= e < |dir| && dir[e] == dir1[g];
      NamesIs(dir, name, dir1[g].ino);
    }
  }

  ghost predicate Has(dir: seq<Dentry>, name: seq<Byte>) {
    exists e :: 0 <= e < |dir| && dir[e].name == name
  }

  // Deleting entry e: the last one takes its place.
  function Dropped(dir: seq<Dentry>, e: nat): seq<Dentry>
    requires e < |dir|
  {
    dir[e := dir[|dir| - 1]][..|dir| - 1]
  }

  lemma {:induction false} CStrOf(name: seq<Byte>, rest: seq<Byte>)
    requires forall i :: 0 <= i < |name| ==> name[i] != 0
    ensures CStr(name + [0] + rest) == name
  {
    var s := name + [0] + rest;
    if |name| > 0 {
      CStrOf(name[1..], rest);
      assert s[1..] == name[1..] + [0] + rest;
    }
  }

  // An entry just written reads back as it was meant.
  lemma EntryRoundTrip(ino: nat, name: seq<Byte>, s: seq<Byte>)
    requires ino < 0x1_0000 && ValidName(name) && |s| == DENSZ && EntryBytes(ino, name) <= s
    ensures DentryOf(s) == Dentry(ino, name)
  {
    var rest := s[|name| + 3..];
    assert s[2..] == name + [0] + rest;
    CStrOf(name, rest);
  }

  lemma EntryKept(c: seq<Byte>, c1: seq<Byte>, e: nat, bytes: seq<Byte>, f: nat, off: nat)
    requires off + |bytes| <= DENSZ && Overwritten(c, c1, DENSZ * e + off, bytes)
    requires f != e && DENSZ * f + DENSZ <= |c|
    ensures DentryAt(c1, f) == DentryAt(c, f)
  {
    assert c1[DENSZ * f..DENSZ * f + DENSZ] == c[DENSZ * f..DENSZ * f + DENSZ];
  }

  lemma DirWritten(c: seq<Byte>, c1: seq<Byte>, e: nat, ino: nat, name: seq<Byte>)
    requires ino < 0x1_0000 && ValidName(name) && DENSZ * e + DENSZ <= |c|
    requires Overwritten(c, c1, DENSZ * e, EntryBytes(ino, name))
    ensures e < |Dir(c)| && Dir(c1) == Dir(c)[e := Dentry(ino, name)]
  {
    forall f | 0 <= f < |Dir(c)| ensures Dir(c1)[f] == Dir(c)[e := Dentry(ino, name)][f] {
      if f == e {
        var s := c1[DENSZ * e..DENSZ * e + DENSZ];
        var bytes := EntryBytes(ino, name);
        assert s[..|bytes|] == bytes by {
          forall i | 0 <= i < |bytes| ensures s[i] == bytes[i] { assert s[i] == c1[DENSZ * e + i]; }
        }
        EntryRoundTrip(ino, name, s);
      } else {
        EntryKept(c, c1, e, EntryBytes(ino, name), f, 0);
      }
    }
  }

  // Clearing the first letter of a name touches no other entry.
  lemma DirCleared(c: seq<Byte>, c1: seq<Byte>, e: nat)
    requires DENSZ * e + DENSZ <= |c| && Overwritten(c, c1, DENSZ * e + 2, [0])
    ensures |Dir(c1)| == |Dir(c)| > e && Dir(c1)[..e] == Dir(c)[..e]
  {
    forall f | 0 <= f < e ensures Dir(c1)[f] == Dir(c)[f] {
      EntryKept(c, c1, e, [0], f, 2);
    }
  }

  // A directory that shares its first bytes with another shares the first entries.
  lemma DirPrefix(c: seq<Byte>, c1: seq<Byte>)
    requires c <= c1
    ensures Dir(c) <= Dir(c1)
  {
    forall e | 0 <= e < |Dir(c)| ensures Dir(c)[e] == Dir(c1)[e] {
      assert c[DENSZ * e..DENSZ * e + DENSZ] == c1[DENSZ * e..DENSZ * e + DENSZ];
    }
  }

  lemma AppendOk(dir: seq<Dentry>, ino: nat, name: seq<Byte>)
    requires DirOk(dir) && ValidName(name) && !Has(dir, name) && ino !in Inos(dir)
    ensures DirOk(dir + [Dentry(ino, name)])
    ensures Inos(dir + [Dentry(ino, name)]) == Inos(dir) + {ino}
  {
    var dir1 := dir + [Dentry(ino, name)];
    forall e | 0 <= e < |dir| ensures dir[e].name != name && dir[e].ino != ino {
      assert dir[e].ino in Inos(dir);
    }
    InosAppend(dir, Dentry(ino, name));
  }

  lemma AppendNames(dir: seq<Dentry>, ino: nat, name: seq<Byte>)
    requires DirOk(dir) && DirOk(dir + [Dentry(ino, name)])
    ensures name !in Names(dir) && Names(dir + [Dentry(ino, name)]) == Names(dir)[name := ino]
  {
    var dir1 := dir + [Dentry(ino, name)];
    assert dir1[|dir|] == Dentry(ino, name);
    forall e | 0 <= e < |dir| ensures dir[e] in dir1 && dir[e].name != name {
      assert dir1[e] == dir[e];
    }
    NamesDiffer(dir1, dir, name);
    NamesIs(dir1, name, ino);
  }

  lemma InosAppend(dir: seq<Dentry>, d: Dentry)
    ensures Inos(dir + [d]) == Inos(dir) + {d.ino}
  {
    var dir1 := dir + [d];
    forall x ensures x in Inos(dir1) <==> x in Inos(dir) + {d.ino} {
      if x in Inos(dir) {
        var e :| 0 <= e < |dir| && dir[e].ino == x;
        assert dir1[e].ino == x;
      }
      assert dir1[|dir|] == d;
    }
  }

  // Where the entries of Dropped come from.
  function Source(n: nat, e: nat, f: nat): nat
    requires e < n && f < n - 1
  {
    if f == e then n - 1 else f
  }

  lemma DroppedOk(dir: seq<Dentry>, e: nat)
    requires DirOk(dir) && e < |dir|
    ensures DirOk(Dropped(dir, e))
    ensures Names(Dropped(dir, e)) == Names(dir) - {dir[e].name}
    ensures Inos(Dropped(dir, e)) == Inos(dir) - {dir[e].ino}
  {
    var dir1 := Dropped(dir, e);
    forall f | 0 <= f < |dir1|
      ensures dir1[f] == dir[Source(|dir|, e, f)] && dir1[f].name != dir[e].name
    {
    }
    assert DirOk(dir1);
    forall f | 0 <= f < |dir| && f != e
      ensures dir[f] in dir1
    {
      assert dir1[if f == |dir| - 1 then e else f] == dir[f];
    }
    NamesDiffer(dir, dir1, dir[e].name);
    DroppedInos(dir, e);
  }

  lemma DroppedInos(dir: seq<Dentry>, e: nat)
    requires DirOk(dir) && e < |dir|
    ensures Inos(Dropped(dir, e)) == Inos(dir) - {dir[e].ino}
  {
    var dir1 := Dropped(dir, e);
    forall x ensures x in Inos(dir1) <==> x in Inos(dir) && x != dir[e].ino {
      if x in Inos(dir1) {
        var f :| 0 <= f < |dir1| && dir1[f].ino == x;
        assert dir[Source(|dir|, e, f)].ino == x;
      }
      if x in Inos(dir) && x != dir[e].ino {
        var f :| 0 <= f < |dir| && dir[f].ino == x;
        assert dir1[if f == |dir| - 1 then e else f].ino == x;
      }
    }
  }

  // Deleting the entry just created gives the old directory back.
  lemma DropLast(dir: seq<Dentry>, d: Dentry)
    ensures Dropped(dir + [d], |dir|) == dir
  {
  }

  // As many entries as inodes, so a directory is never too long for its block map.
  lemma {:induction false} EntriesCount(dir: seq<Dentry>)
    requires DirOk(dir)
    ensures |Inos(dir)| == |dir|
  {
    if |dir| == 0 {
      assert Inos(dir) == {};
    } else {
      var init, last := dir[..|dir| - 1], dir[|dir| - 1];
      assert dir == init + [last];
      EntriesCount(init);
      InosAppend(init, last);
      assert last.ino !in Inos(init);
    }
  }

  lemma {:induction false} BoundedSet(s: set<nat>, n: nat)
    requires forall x :: x in s ==> x < n
    ensures |s| <= n
  {
    if n == 0 {
      assert s == {};
    } else {
      BoundedSet(s - {n - 1}, n - 1);
      assert |s| <= |s - {n - 1}| + 1;
    }
  }
}
