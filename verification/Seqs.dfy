/** Facts about concatenated sequences. */
module Seqs {
  lemma SplitConcat<T>(a: seq<T>, b: seq<T>)
    ensures (a + b)[..|a|] == a
    ensures (a + b)[|a|..] == b
  {
  }

  lemma PrefixSplit<T>(a: seq<T>, s: seq<T>)
    requires a <= s
    ensures s == a + s[|a|..]
  {
  }

  lemma DropDrop<T>(s: seq<T>, i: nat, j: nat)
    requires i <= j <= |s|
    ensures s[j..] == s[i..][j - i..]
  {
  }

  lemma Middle<T>(a: seq<T>, b: seq<T>, c: seq<T>)
    ensures (a + b + c)[|a|..|a| + |b|] == b
  {
  }

  lemma Assoc<T>(a: seq<T>, b: seq<T>, c: seq<T>)
    ensures (a + b) + c == a + (b + c)
  {
  }

  /** Five parts after a head, regrouped around the second and around the fourth. */
  lemma Regroup<T>(h: seq<T>, w: seq<T>, z: seq<T>, p: seq<T>, v: seq<T>, t: seq<T>)
    ensures h + (w + z + p + v + t) == (h + w) + (z + (p + v + t))
    ensures h + (w + z + p + v + t) == (h + (w + z) + p) + v + t
  {
    Assoc(h + w, z, p + v + t);
  }

  lemma SplitAfter<T>(s: seq<T>, at: nat, a: seq<T>, b: seq<T>, c: seq<T>)
    requires at <= |s| && s[at..] == a + b + c
    ensures b <= s[at + |a|..]
    ensures s[at + |a| + |b|..] == c
  {
    DropDrop(s, at, at + |a|);
    DropDrop(s, at, at + |a| + |b|);
  }

  lemma TailOfConcat<T>(a: seq<T>, b: seq<T>)
    requires a != []
    ensures (a + b)[0] == a[0]
    ensures (a + b)[1..] == a[1..] + b
  {
  }

  lemma InitOfConcat<T>(a: seq<T>, b: seq<T>)
    requires b != []
    ensures (a + b)[|a + b| - 1] == b[|b| - 1]
    ensures (a + b)[..|a + b| - 1] == a + b[..|b| - 1]
  {
  }

  lemma EmptyConcat<T>(a: seq<T>)
    ensures [] + a == a && a + [] == a
  {
  }

  /** Moving the first part of the middle to the left. */
  lemma Shift<T>(a: seq<T>, p: seq<T>, w: seq<T>, c: seq<T>)
    ensures a + (p + w) + c == (a + p) + w + c
    ensures a + (p + w) + c == a + (p + (w + c))
  {
  }

  lemma SplitAround<T>(s: seq<T>, e: nat)
    requires e < |s|
    ensures s == s[..e] + [s[e]] + s[e + 1..]
  {
  }

  lemma Around<T>(a: seq<T>, x: T, d: seq<T>)
    ensures |a + [x] + d| == |a| + 1 + |d|
    ensures (a + [x] + d)[|a|] == x
    ensures (a + [x] + d)[..|a|] == a
    ensures (a + [x] + d)[|a| + 1..] == d
  {
  }

  lemma DropTwo<T>(a: seq<T>, b: seq<T>, c: seq<T>)
    ensures (a + (b + c))[|a| + |b|..] == c
  {
  }

  /** The elements at the marked positions, in order. */
  function Kept<T>(s: seq<T>, keep: seq<bool>): seq<T>
    requires |s| == |keep|
  {
    if s == [] then [] else (if keep[0] then [s[0]] else []) + Kept(s[1..], keep[1..])
  }

  /** An element occurs among the kept ones once for each marked position that holds it. */
  lemma {:induction false} KeptIn<T>(s: seq<T>, keep: seq<bool>, x: T)
    requires |s| == |keep|
    ensures x in Kept(s, keep) <==> exists i :: 0 <= i < |s| && keep[i] && s[i] == x
    decreases |s|
  {
    if s != [] {
      KeptIn(s[1..], keep[1..], x);
      if i :| 0 <= i < |s| && keep[i] && s[i] == x {
        assert i == 0 || (keep[1..][i - 1] && s[1..][i - 1] == x);
      }
      if x in Kept(s[1..], keep[1..]) {
        var i :| 0 <= i < |s[1..]| && keep[1..][i] && s[1..][i] == x;
        assert keep[i + 1] && s[i + 1] == x;
      }
    }
  }

  lemma {:induction false} KeptLast<T>(s: seq<T>, keep: seq<bool>)
    requires |s| == |keep| > 0
    ensures Kept(s, keep) == Kept(s[..|s| - 1], keep[..|s| - 1]) + if keep[|s| - 1] then [s[|s| - 1]] else []
    decreases |s|
  {
    var n := |s| - 1;
    if n > 0 {
      KeptLast(s[1..], keep[1..]);
      assert s[1..][..n - 1] == s[..n][1..] && keep[1..][..n - 1] == keep[..n][1..];
      Assoc(if keep[0] then [s[0]] else [], Kept(s[..n][1..], keep[..n][1..]), if keep[n] then [s[n]] else []);
    }
  }
}
