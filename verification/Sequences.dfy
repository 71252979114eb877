/** Laws of concatenation and slicing. */
module Sequences {

  lemma Associative<T>(a: seq<T>, b: seq<T>, c: seq<T>)
    ensures a + (b + c) == a + b + c
  {
  }

  lemma Halves<T>(a: seq<T>, i: nat)
    requires i <= |a|
    ensures a[..i] + a[i..] == a
  {
  }

  lemma TakeAfterDrop<T>(a: seq<T>, i: nat, n: nat)
    requires i + n <= |a|
    ensures a[i..][..n] == a[i..i + n]
  {
  }

  /** A piece of what follows the first h elements. */
  lemma SliceAt<T>(s: seq<T>, h: nat, a: seq<T>, b: seq<T>, c: seq<T>)
    requires h <= |s| && s[h..] == a + b + c
    ensures |s| == h + |a| + |b| + |c|
    ensures s[h + |a|..h + |a| + |b|] == b
  {
    var t := a + b + c;
    assert t[|a|..|a| + |b|] == b;
    assert s[h + |a|..h + |a| + |b|] == s[h..][|a|..|a| + |b|];
  }

  lemma SliceTwo<T>(s: seq<T>, h: nat, a: seq<T>, b: seq<T>, c: seq<T>, d: seq<T>)
    requires h <= |s| && s[h..] == a + (b + c) + d
    ensures |s| == h + |a| + |b| + |c| + |d|
    ensures s[h + |a|..h + |a| + |b|] == b
    ensures s[h + |a| + |b|..h + |a| + |b| + |c|] == c
  {
    Associative(a, b, c);
    Associative(a + b, c, d);
    SliceAt(s, h, a, b, c + d);
    SliceAt(s, h, a + b, c, d);
  }

  lemma Window<T>(a: seq<T>, i: nat, j: nat, k: nat)
    requires j <= k && i + k <= |a|
    ensures a[i..][j..k] == a[i + j..i + k]
  {
  }

  lemma DropAfterDrop<T>(a: seq<T>, i: nat, j: nat)
    requires i + j <= |a|
    ensures a[i..][j..] == a[i + j..]
  {
  }

  /** Taking n elements that begin in one piece and end in the next. */
  lemma TakeAcross<T>(s: seq<T>, p: nat, a: seq<T>, b: seq<T>, n: nat)
    requires p <= |s| && s[p..] == a + b && |a| <= n
    ensures p + n <= |s| <==> n - |a| <= |b|
    ensures p + n <= |s| ==> s[p..p + n] == a + b[..n - |a|] && s[p + n..] == b[n - |a|..]
  {
    if p + n <= |s| {
      TakeAfterDrop(s, p, n);
      DropAfterDrop(s, p, n);
      assert (a + b)[..n] == a + b[..n - |a|] && (a + b)[n..] == b[n - |a|..];
    }
  }

  lemma TakeMore<T>(a: seq<T>, i: nat)
    requires i < |a|
    ensures a[..i + 1] == a[..i] + [a[i]]
  {
  }

  /** Moving a cut of the middle piece. */
  lemma Regroup<T>(a: seq<T>, b: seq<T>, c: seq<T>, i: nat)
    requires i <= |b|
    ensures a + (b + c) == (a + b[..i]) + (b[i..] + c)
  {
    Halves(b, i);
    Associative(b[..i], b[i..], c);
    Associative(a, b[..i], b[i..] + c);
  }

  lemma Chain<T>(s0: seq<T>, s1: seq<T>, s2: seq<T>, s3: seq<T>, a: seq<T>, b: seq<T>, c: seq<T>)
    requires s0 == a + s1 && s1 == b + s2 && s2 == c + s3
    ensures s0 == a + b + c + s3
  {
    Associative(a, b, c + s3);
    Associative(a + b, c, s3);
  }

  /** A cut behind the first piece, and one within it. */
  lemma Cut<T>(a: seq<T>, b: seq<T>, n: nat)
    ensures |a| <= n <= |a| + |b| ==> (a + b)[..n] == a + b[..n - |a|]
    ensures n <= |a| ==> (a + b)[..n] == a[..n]
  {
  }

  lemma Fields<T>(a: seq<T>, b: seq<T>, c: seq<T>)
    ensures (a + b + c)[..|a|] == a
    ensures (a + b + c)[|a|..|a| + |b|] == b
    ensures (a + b + c)[|a| + |b|..] == c
  {
  }

  lemma Six<T>(a: seq<T>)
    requires |a| == 6
    ensures a == [a[0], a[1], a[2], a[3], a[4], a[5]]
  {
  }

  lemma Eight<T>(a: seq<T>)
    requires |a| == 8
    ensures a == [a[0], a[1], a[2], a[3], a[4], a[5], a[6], a[7]]
  {
  }

  /** Replacing one element keeps all others that differ from it. */
  lemma UpdateKeepsOthers<T>(a: seq<T>, i: nat, x: T)
    requires i < |a|
    ensures x in a[i := x]
    ensures forall y :: y in a && y != a[i] ==> y in a[i := x]
  {
    assert a[i := x][i] == x;
    forall y | y in a && y != a[i]
      ensures y in a[i := x]
    {
      var j :| 0 <= j < |a| && a[j] == y;
      assert a[i := x][j] == y;
    }
  }
}
