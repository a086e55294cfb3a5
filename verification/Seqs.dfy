/** Sequence facts the proofs call by name, so that no proof has to rediscover them. */
module Seqs {
  lemma {:induction false} Assoc<T>(a: seq<T>, b: seq<T>, c: seq<T>)
    ensures a + (b + c) == a + b + c
  {
  }

  lemma {:induction false} Whole<T>(s: seq<T>)
    ensures s[..0] == [] && s[0..] == s && s[..|s|] == s && s[|s|..] == []
    ensures s + [] == s && [] + s == s
  {
  }

  lemma {:induction false} Halves<T>(s: seq<T>, n: nat)
    requires n <= |s|
    ensures s[..n] + s[n..] == s
  {
  }

  lemma {:induction false} DropDrop<T>(s: seq<T>, i: nat, j: nat)
    requires i + j <= |s|
    ensures s[i..][j..] == s[i + j..]
  {
  }

  lemma {:induction false} TakeTake<T>(s: seq<T>, i: nat, j: nat)
    requires i <= j <= |s|
    ensures s[..j][..i] == s[..i]
  {
  }

  /** An element of a prefix. */
  lemma {:induction false} InTake<T>(s: seq<T>, i: nat, n: nat)
    requires i < |s| && n <= |s|
    ensures i < n ==> s[..n][i] == s[i] && s[i] in s[..n]
  {
  }

  /** An element of a slice. */
  lemma {:induction false} InSlice<T>(s: seq<T>, k: nat, i: nat, j: nat)
    requires i <= j <= |s| && k < |s|
    ensures i <= k < j ==> s[k] in s[i..j]
  {
    assert i <= k < j ==> s[i..j][k - i] == s[k];
  }

  /** Taking and dropping at the seam of a concatenation. */
  lemma {:induction false} Seam<T>(a: seq<T>, b: seq<T>)
    ensures (a + b)[..|a|] == a && (a + b)[|a|..] == b
  {
  }

  /** A slice behind the seam. */
  lemma {:induction false} SliceBehind<T>(a: seq<T>, b: seq<T>, n: nat, m: nat)
    requires |a| <= n <= m <= |a| + |b|
    ensures (a + b)[n..m] == b[n - |a|..m - |a|]
  {
  }

  lemma {:induction false} TakeBehind<T>(a: seq<T>, b: seq<T>, n: nat)
    requires |a| <= n <= |a| + |b|
    ensures (a + b)[..n] == a + b[..n - |a|]
  {
  }

  lemma {:induction false} SliceSlice<T>(s: seq<T>, i: nat, j: nat, a: nat, b: nat)
    requires i <= j <= |s| && a <= b <= j - i
    ensures s[i..j][a..b] == s[i + a..i + b]
  {
    var t := s[i..j];
    forall k | 0 <= k < b - a ensures t[a..b][k] == s[i + a..i + b][k] {
      assert t[a..b][k] == t[a + k] == s[i + (a + k)];
    }
  }

  /** A prefix and the slice after it. */
  lemma {:induction false} TakeSlice<T>(s: seq<T>, n: nat, m: nat)
    requires n <= m <= |s|
    ensures s[..n] + s[n..m] == s[..m]
  {
  }

  lemma {:induction false} Cancel<T>(a: seq<T>, b: seq<T>, c: seq<T>)
    requires a + b == a + c
    ensures b == c
  {
    Seam(a, b);
    Seam(a, c);
  }

  lemma {:induction false} SliceRest<T>(s: seq<T>, n: nat, m: nat)
    requires n <= m <= |s|
    ensures s[n..m] + s[m..] == s[n..]
  {
  }

  lemma {:induction false} SliceParts<T>(s: seq<T>, i: nat, p: nat, e: nat)
    requires i <= p <= e <= |s|
    ensures s[i..][..p - i] + s[p..][..e - p] == s[i..e]
  {
  }

  /** What lies in a common prefix is common. */
  lemma {:induction false} SameSlice<T>(s: seq<T>, t: seq<T>, n: nat, i: nat, j: nat)
    requires i <= j <= n <= |s| && n <= |t| && s[..n] == t[..n]
    ensures s[i..j] == t[i..j]
  {
    forall k | i <= k < j ensures s[k] == t[k] { SameElement(s, t, n, k); }
  }

  lemma {:induction false} SameElement<T>(s: seq<T>, t: seq<T>, n: nat, i: nat)
    requires i < n <= |s| && n <= |t| && s[..n] == t[..n]
    ensures s[i] == t[i]
  {
    assert s[i] == s[..n][i];
    assert t[i] == t[..n][i];
  }

  /** Splitting a slice at a point of it. */
  lemma {:induction false} TakeOfDrop<T>(s: seq<T>, i: nat, n: nat)
    requires i + n <= |s|
    ensures s[i..][..n] == s[i..i + n] && s[..i + n] == s[..i] + s[i..][..n]
  {
  }

  /** The texts of the elements, one after the other. */
  function Flat<T>(xs: seq<T>, f: T -> string): string {
    if xs == [] then [] else f(xs[0]) + Flat(xs[1..], f)
  }

  lemma {:induction false} FlatConcat<T>(a: seq<T>, b: seq<T>, f: T -> string)
    ensures Flat(a, f) + Flat(b, f) == Flat(a + b, f)
  {
    if a == [] {
      assert a + b == b;
    } else {
      assert (a + b)[1..] == a[1..] + b;
      FlatConcat(a[1..], b, f);
      Assoc(f(a[0]), Flat(a[1..], f), Flat(b, f));
    }
  }

  lemma {:induction false} FlatSplit<T>(xs: seq<T>, i: nat, f: T -> string)
    requires i <= |xs|
    ensures Flat(xs[..i], f) + Flat(xs[i..], f) == Flat(xs, f)
  {
    Halves(xs, i);
    FlatConcat(xs[..i], xs[i..], f);
  }
}
