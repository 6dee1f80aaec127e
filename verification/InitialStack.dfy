// build_stack of sys/process.c: argv marshalled into the page that becomes the top of the user stack.

module InitialStack {
  import opened Errors
  import opened LittleEndian
  import opened Sequences

  const PAGE: nat := 4096
  const UMEM_END: nat := 0x1_0000_0000
  const STACK_BASE: nat := UMEM_END - PAGE      // where the user will see the page

  // A C string: no NUL inside.
  type Arg = s: seq<Byte> | forall i :: 0 <= i < |s| ==> s[i] != 0

  // The bytes that the first n strings take, with their NULs.
  function Size(args: seq<Arg>, n: nat): (size: nat)
    requires n <= |args|
    ensures size >= n
  {
    if n == 0 then 0 else Size(args, n - 1) + |args[n - 1]| + 1
  }

  // The argument vector and the strings, before and after rounding.
  function Needed(args: seq<Arg>): nat {
    8 * (|args| + 1) + Size(args, |args|)
  }

  function RoundUp16(n: nat): (r: nat)
    ensures r % 16 == 0 && n <= r < n + 16
  {
    (n + 15) / 16 * 16
  }

  lemma {:induction false} SizeGrows(args: seq<Arg>, m: nat, n: nat)
    requires m <= n <= |args|
    ensures Size(args, m) <= Size(args, n)
    ensures m < n ==> Size(args, m) + |args[m]| + 1 <= Size(args, n)
  {
    if m < n { SizeGrows(args, m, n - 1); }
  }

  // A user pointer in the page: 64 bits, of which the upper half is zero.
  ghost predicate PointerAt(page: seq<Byte>, at: nat, v: Word) {
    && at + 8 <= |page|
    && WordAt(page, at) == v && WordAt(page, at + 4) == 0
  }

  ghost predicate StringAt(page: seq<Byte>, at: nat, s: Arg) {
    at + |s| + 1 <= |page| && page[at..at + |s|] == s && page[at + |s|] == 0
  }

  // Where string i lies, for a vector at offset base.
  function Offset(args: seq<Arg>, base: nat, i: nat): nat
    requires i <= |args|
  {
    base + 8 * (|args| + 1) + Size(args, i)
  }

  // What follows a page offset as C reads it: up to the next NUL.
  function CStrAt(page: seq<Byte>, at: nat): seq<Byte>
    requires at <= |page|
    decreases |page| - at
  {
    if at == |page| || page[at] == 0 then [] else [page[at]] + CStrAt(page, at + 1)
  }

  lemma {:induction false} StringReadsBack(page: seq<Byte>, at: nat, s: Arg)
    requires StringAt(page, at, s)
    ensures CStrAt(page, at) == s
    decreases |s|
  {
    assert page[at..at + |s|] == s;
    if |s| > 0 {
      var t := s[1..];
      assert page[at] == s[0];
      assert page[at + 1..at + 1 + |t|] == t;
      StringReadsBack(page, at + 1, t);
    }
  }

  method Paste(page: array<Byte>, at: nat, bytes: seq<Byte>)
    requires at + |bytes| <= page.Length
    modifies page
    ensures Overwritten(old(page[..]), page[..], at, bytes)
  {
    forall i | 0 <= i < |bytes| { page[at + i] := bytes[i]; }
  }

  lemma PointerPasted(b1: seq<Byte>, b2: seq<Byte>, at: nat, v: Word)
    requires Overwritten(b1, b2, at, WordBytes(v) + WordBytes(0))
    ensures PointerAt(b2, at, v)
  {
    WordOfBytes(v, b2, at);
    WordOfBytes(0, b2, at + 4);
  }

  lemma PointerKept(b1: seq<Byte>, b2: seq<Byte>, at: nat, bytes: seq<Byte>, p: nat, v: Word)
    requires Overwritten(b1, b2, at, bytes) && PointerAt(b1, p, v) && (p + 8 <= at || at + |bytes| <= p)
    ensures PointerAt(b2, p, v)
  {
  }

  lemma StringPasted(b1: seq<Byte>, b2: seq<Byte>, at: nat, s: Arg)
    requires Overwritten(b1, b2, at, s + [0])
    ensures StringAt(b2, at, s)
  {
  }

  lemma StringKept(b1: seq<Byte>, b2: seq<Byte>, at: nat, bytes: seq<Byte>, p: nat, s: Arg)
    requires Overwritten(b1, b2, at, bytes) && StringAt(b1, p, s) && (p + |s| + 1 <= at || at + |bytes| <= p)
    ensures StringAt(b2, p, s)
  {
    assert b2[p..p + |s|] == b1[p..p + |s|];
  }

  // Argument i is in place: its pointer in the vector, and its string where that points.
  ghost predicate ArgAt(page: seq<Byte>, args: seq<Arg>, base: nat, i: nat)
    requires i < |args|
  {
    && STACK_BASE + Offset(args, base, i) < UMEM_END
    && PointerAt(page, base + 8 * i, STACK_BASE + Offset(args, base, i))
    && StringAt(page, Offset(args, base, i), args[i])
  }

  ghost predicate Filled(page: seq<Byte>, args: seq<Arg>, base: nat, n: nat)
    requires n <= |args|
  {
    forall i {:trigger ArgAt(page, args, base, i)} :: 0 <= i < n ==> ArgAt(page, args, base, i)
  }

  lemma FilledMore(b0: seq<Byte>, b1: seq<Byte>, b2: seq<Byte>, args: seq<Arg>, base: nat, n: nat)
    requires n < |args| && Filled(b0, args, base, n) && base + Needed(args) <= PAGE == |b0|
    requires STACK_BASE + Offset(args, base, n) < UMEM_END
    requires Overwritten(b0, b1, base + 8 * n, WordBytes(STACK_BASE + Offset(args, base, n)) + WordBytes(0))
    requires Overwritten(b1, b2, Offset(args, base, n), args[n] + [0])
    ensures Filled(b2, args, base, n + 1)
  {
    var v: Word := STACK_BASE + Offset(args, base, n);
    PointerPasted(b0, b1, base + 8 * n, v);
    PointerKept(b1, b2, Offset(args, base, n), args[n] + [0], base + 8 * n, v);
    StringPasted(b1, b2, Offset(args, base, n), args[n]);
    forall i | 0 <= i < n ensures ArgAt(b2, args, base, i) {
      assert ArgAt(b0, args, base, i);
      SizeGrows(args, i, n);
      ArgKept(b0, b1, args, base, i, base + 8 * n, WordBytes(v) + WordBytes(0));
      ArgKept(b1, b2, args, base, i, Offset(args, base, n), args[n] + [0]);
    }
  }

  // Writing beside an argument leaves it in place.
  lemma ArgKept(b1: seq<Byte>, b2: seq<Byte>, args: seq<Arg>, base: nat, i: nat, at: nat, bytes: seq<Byte>)
    requires i < |args| && ArgAt(b1, args, base, i) && Overwritten(b1, b2, at, bytes)
    requires base + 8 * i + 8 <= at
    requires Offset(args, base, i) + |args[i]| + 1 <= at || at + |bytes| <= Offset(args, base, i)
    ensures ArgAt(b2, args, base, i)
  {
    PointerKept(b1, b2, at, bytes, base + 8 * i, STACK_BASE + Offset(args, base, i));
    StringKept(b1, b2, at, bytes, Offset(args, base, i), args[i]);
  }

  // The null pointer at the end of the vector lies between the vector and the strings.
  lemma FilledEnd(b1: seq<Byte>, b2: seq<Byte>, args: seq<Arg>, base: nat)
    requires Filled(b1, args, base, |args|) && Overwritten(b1, b2, base + 8 * |args|, WordBytes(0) + WordBytes(0))
    ensures Filled(b2, args, base, |args|) && PointerAt(b2, base + 8 * |args|, 0)
  {
    PointerPasted(b1, b2, base + 8 * |args|, 0);
    forall i | 0 <= i < |args| ensures ArgAt(b2, args, base, i) {
      assert ArgAt(b1, args, base, i);
      ArgKept(b1, b2, args, base, i, base + 8 * |args|, WordBytes(0) + WordBytes(0));
    }
  }

  // The size loop: -1 as soon as a string no longer fits.
  method Measure(args: seq<Arg>) returns (ok: bool, stksz: nat)
    requires 8 * (|args| + 1) <= PAGE
    ensures ok <==> Needed(args) <= PAGE
    ensures ok ==> stksz == Needed(args)
  {
    stksz := (|args| + 1) * 8;
    for i := 0 to |args|
      invariant stksz == 8 * (|args| + 1) + Size(args, i) <= PAGE
    {
      var argsz := |args[i]| + 1;
      if PAGE - stksz < argsz {
        SizeGrows(args, i, |args|);
        return false, stksz;
      }
      stksz := stksz + argsz;
    }
    ok := true;
  }

  // build_stack. The comparison with argc is unsigned, so a negative argc is refused, too.
  method BuildStack(stack: array<Byte>, argc: int, argv: seq<Arg>) returns (rc: int)
    requires stack.Length == PAGE && (argc >= 0 ==> |argv| == argc)
    modifies stack
    ensures rc == -ENOMEM <==> argc < 0 || Needed(argv) > PAGE
    ensures rc == -ENOMEM ==> stack[..] == old(stack[..])
    ensures rc != -ENOMEM ==> rc == RoundUp16(Needed(argv)) && rc % 16 == 0 && rc <= PAGE
    ensures rc != -ENOMEM ==> Filled(stack[..], argv, PAGE - rc, argc) && PointerAt(stack[..], PAGE - rc + 8 * argc, 0)
  {
    if argc < 0 || PAGE / 8 - 1 < argc { return -ENOMEM; }
    var ok, stksz := Measure(argv);
    if !ok { return -ENOMEM; }
    stksz := RoundUp16(stksz);
    Fill(stack, argv, PAGE - stksz);
    rc := stksz;
  }

  // the copy loop, and the null pointer that ends the vector
  method Fill(stack: array<Byte>, argv: seq<Arg>, newargv: nat)
    requires stack.Length == PAGE && newargv + Needed(argv) <= PAGE
    modifies stack
    ensures Filled(stack[..], argv, newargv, |argv|) && PointerAt(stack[..], newargv + 8 * |argv|, 0)
  {
    var p := newargv + 8 * (|argv| + 1);
    var i := 0;
    while i < |argv|
      invariant i <= |argv| && p == Offset(argv, newargv, i) && Filled(stack[..], argv, newargv, i)
    {
      PutArg(stack, argv, newargv, p, i);
      p := p + |argv[i]| + 1;
      i := i + 1;
    }
    ghost var b := stack[..];
    Paste(stack, newargv + 8 * |argv|, WordBytes(0) + WordBytes(0));
    FilledEnd(b, stack[..], argv, newargv);
  }

  // one turn of the copy loop
  method PutArg(stack: array<Byte>, argv: seq<Arg>, newargv: nat, p: nat, i: nat)
    requires stack.Length == PAGE && i < |argv| && newargv + Needed(argv) <= PAGE
    requires p == Offset(argv, newargv, i) && Filled(stack[..], argv, newargv, i)
    modifies stack
    ensures Filled(stack[..], argv, newargv, i + 1)
  {
    SizeGrows(argv, i, |argv|);
    Paste(stack, newargv + 8 * i, WordBytes(UMEM_END - PAGE + p) + WordBytes(0));
    ghost var b1 := stack[..];
    Paste(stack, p, argv[i] + [0]);
    FilledMore(old(stack[..]), b1, stack[..], argv, newargv, i);
  }

  // Following the user pointers recovers every string; the vector and the strings lie in the page and do not
  // overlap.
  lemma StackReadsBack(page: seq<Byte>, args: seq<Arg>, base: nat, i: nat, j: nat)
    requires i < |args| && j < |args| && |page| == PAGE && base + Needed(args) <= PAGE
    requires Filled(page, args, base, |args|)
    ensures var v := WordAt(page, base + 8 * i);
      STACK_BASE <= v < UMEM_END && CStrAt(page, v - STACK_BASE) == args[i]
      && v - STACK_BASE >= base + 8 * (|args| + 1) && v - STACK_BASE + |args[i]| + 1 <= PAGE
    ensures i < j ==>
      WordAt(page, base + 8 * i) + |args[i]| + 1 <= WordAt(page, base + 8 * j)
  {
    assert ArgAt(page, args, base, i) && ArgAt(page, args, base, j);
    StringReadsBack(page, Offset(args, base, i), args[i]);
    SizeGrows(args, i, |args|);
    if i < j { SizeGrows(args, i, j); }
  }
}
