// Small facts shared by the models: multiples and remainders, lists without duplicates, overwritten sequences.

// error.h
module Errors {
  const EINVAL: int := 1
  const EBUSY: int := 2
  const EIO: int := 4
  const ENOENT: int := 6
  const ENOMEM: int := 13
  const EPIPE: int := 14
}

module Arith {
  function Min(a: int, b: int): int {
    if a < b then a else b
  }

  function Max(a: int, b: int): int {
    if a < b then b else a
  }

  lemma MulAtLeast(k: nat, m: nat)
    requires k >= 1
    ensures k * m >= m
  {
  }

  lemma DivLess(a: nat, d: nat)
    requires d > 0
    ensures a / d * d <= a < a / d * d + d
  {
  }

  lemma ModIs(x: nat, m: nat, q: nat, r: nat)
    requires m > 0 && x == m * q + r && r < m
    ensures x / m == q && x % m == r
  {
    var p, t := x / m, x % m;
    assert x == p * m + t;
    assert (p - q) * m == p * m - q * m;
    assert (q - p) * m == q * m - p * m;
    if p > q { MulAtLeast(p - q, m); }
    if p < q { MulAtLeast(q - p, m); }
  }
}

module Sequences {
  lemma AppendNothing<T>(a: seq<T>)
    ensures a + [] == a
  {
  }

  lemma AppendAssociates<T>(a: seq<T>, b: seq<T>, c: seq<T>)
    ensures a + b + c == a + (b + c)
  {
  }

  // The first k elements, cut behind the first one; and the elements behind them.
  lemma TakeFront<T>(s: seq<T>, k: nat)
    requires 0 < k <= |s|
    ensures [s[0]] + s[1..][..k - 1] == s[..k] && s[1..][k - 1..] == s[k..]
  {
  }

  lemma AppendFront<T>(a: seq<T>, s: seq<T>, k: nat)
    requires 0 < k <= |s|
    ensures a + [s[0]] + s[1..][..k - 1] == a + s[..k]
  {
    TakeFront(s, k);
    AppendAssociates(a, [s[0]], s[1..][..k - 1]);
  }

  function Without<T>(s: seq<T>, i: nat): seq<T>
    requires i < |s|
  {
    s[..i] + s[i + 1..]
  }

  ghost predicate Differ<T>(ns: seq<T>, i: nat, j: nat)
    requires i < |ns| && j < |ns|
  {
    ns[i] != ns[j]
  }

  // No element twice, in a form that is looked at only where it is asked for.
  ghost predicate NoDup<T>(ns: seq<T>) {
    forall i, j {:trigger Differ(ns, i, j)} :: 0 <= i < j < |ns| ==> Differ(ns, i, j)
  }

  lemma OnlyAt<T>(ns: seq<T>, i: nat)
    requires i < |ns| && NoDup(ns)
    ensures forall k {:trigger ns[k]} :: 0 <= k < |ns| && k != i ==> ns[k] != ns[i]
  {
    forall k {:trigger ns[k]} | 0 <= k < |ns| && k != i
      ensures ns[k] != ns[i]
    {
      assert if k < i then Differ(ns, k, i) else Differ(ns, i, k);
    }
  }

  lemma NoDupAppend<T>(ns: seq<T>, t: T)
    requires NoDup(ns) && t !in ns
    ensures NoDup(ns + [t])
  {
    var ms := ns + [t];
    forall i, j {:trigger Differ(ms, i, j)} | 0 <= i < j < |ms| ensures Differ(ms, i, j) {
      assert j < |ns| ==> Differ(ns, i, j);
    }
  }

  lemma NoDupCons<T>(t: T, ns: seq<T>)
    requires NoDup(ns) && t !in ns
    ensures NoDup([t] + ns)
  {
    var ms := [t] + ns;
    forall i, j {:trigger Differ(ms, i, j)} | 0 <= i < j < |ms| ensures Differ(ms, i, j) {
      assert i > 0 ==> Differ(ns, i - 1, j - 1);
    }
  }

  lemma NoDupRest<T>(ns: seq<T>)
    requires NoDup(ns) && |ns| > 0
    ensures NoDup(ns[1..]) && ns[0] !in ns[1..]
  {
    var ms := ns[1..];
    forall i, j {:trigger Differ(ms, i, j)} | 0 <= i < j < |ms| ensures Differ(ms, i, j) {
      assert Differ(ns, i + 1, j + 1);
    }
    forall i | 1 <= i < |ns| ensures ns[0] != ns[i] {
      assert Differ(ns, 0, i);
    }
  }

  lemma NoDupWithout<T>(ns: seq<T>, i: nat)
    requires i < |ns| && NoDup(ns)
    ensures NoDup(Without(ns, i)) && ns[i] !in Without(ns, i)
  {
    OnlyAt(ns, i);
    var ms := Without(ns, i);
    forall a, b {:trigger Differ(ms, a, b)} | 0 <= a < b < |ms|
      ensures Differ(ms, a, b)
    {
      assert Differ(ns, if a < i then a else a + 1, if b < i then b else b + 1);
    }
  }

  // c1 is c with bytes from position pos on.
  ghost predicate Overwritten<T>(c: seq<T>, c1: seq<T>, pos: nat, bytes: seq<T>) {
    |c1| == |c| && pos + |bytes| <= |c| && forall p {:trigger c1[p]} :: 0 <= p < |c| ==>
      c1[p] == if pos <= p < pos + |bytes| then bytes[p - pos] else c[p]
  }

  lemma OverwrittenExactly<T>(c: seq<T>, c1: seq<T>, pos: nat, bytes: seq<T>)
    requires Overwritten(c, c1, pos, bytes)
    ensures c1 == c[..pos] + bytes + c[pos + |bytes|..]
  {
  }
}
