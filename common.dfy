/** Small shared vocabulary: an optional value and the running maximum that
    every accumulator loop of the system computes. */
module Common {

  datatype Option<+T> = None | Some(value: T)

  function Max(a: nat, b: nat): nat {
    if a < b then b else a
  }

  /** The value an accumulator `m := 0; for x in s: if x > m then m := x`
      ends with: 0 on an empty sequence, otherwise the largest element. */
  function SeqMax(s: seq<nat>): (r: nat)
    ensures forall i :: 0 <= i < |s| ==> s[i] <= r
    ensures s == [] ==> r == 0
    ensures s != [] ==> r in s
    decreases |s|
  {
    if s == [] then 0 else Max(SeqMax(s[..|s| - 1]), s[|s| - 1])
  }

  /** One more step of the accumulator. */
  lemma SeqMaxSnoc(s: seq<nat>, x: nat)
    ensures SeqMax(s + [x]) == Max(SeqMax(s), x)
  {
    assert (s + [x])[..|s + [x]| - 1] == s;
  }

  /** The maximum depends only on which elements occur, not on their order
      or multiplicity. */
  lemma SeqMaxSameElements(a: seq<nat>, b: seq<nat>)
    requires forall x :: x in a <==> x in b
    ensures SeqMax(a) == SeqMax(b)
  {
    if a != [] {
      assert a[0] in b;
    }
    if b != [] {
      assert b[0] in a;
    }
    var ma, mb := SeqMax(a), SeqMax(b);
    if a != [] {
      assert ma in b;
      var i :| 0 <= i < |b| && b[i] == ma;
      assert ma <= mb;
      assert mb in a;
      var j :| 0 <= j < |a| && a[j] == mb;
      assert mb <= ma;
    }
  }

  /** In particular a permutation of the inputs yields the same maximum. */
  lemma SeqMaxPermutation(a: seq<nat>, b: seq<nat>)
    requires multiset(a) == multiset(b)
    ensures SeqMax(a) == SeqMax(b)
  {
    forall x
      ensures x in a <==> x in b
    {
      assert x in a <==> x in multiset(a);
      assert x in b <==> x in multiset(b);
    }
    SeqMaxSameElements(a, b);
  }

  /* Sequence identities, kept apart so that each is proved where no
     quantifier of the model can fire on the indices they introduce. */

  lemma AppendAssoc<T>(a: seq<T>, b: seq<T>, c: seq<T>)
    ensures a + (b + c) == (a + b) + c
  {
  }

  lemma AppendNil<T>(a: seq<T>)
    ensures a + [] == a && [] + a == a
  {
  }

  lemma SplitAt<T>(s: seq<T>, k: nat)
    requires k <= |s|
    ensures s[..k] + s[k..] == s
  {
  }

  lemma TakeSnoc<T>(s: seq<T>, k: nat)
    requires k < |s|
    ensures s[..k + 1] == s[..k] + [s[k]]
  {
  }

  lemma DropCons<T>(s: seq<T>, k: nat)
    requires k < |s|
    ensures s[k..] == [s[k]] + s[k + 1..]
  {
  }

  lemma ConsAppend<T>(a: seq<T>, b: seq<T>)
    requires a != []
    ensures (a + b)[0] == a[0] && (a + b)[1..] == a[1..] + b
  {
  }

  lemma TakeTail<T>(s: seq<T>, k: nat)
    requires 0 < k <= |s|
    ensures s[..k][1..] == s[1..][..k - 1] && s[k..] == s[1..][k - 1..]
  {
  }

  lemma AppendParts<T>(a: seq<T>, x: T, c: seq<T>, d: seq<T>, w: seq<T>)
    requires w == a + ([x] + c + d)
    ensures |a| + 1 + |c| <= |w|
    ensures w[..|a|] == a
    ensures w[|a|] == x
    ensures w[|a| + 1..|a| + 1 + |c|] == c
  {
    assert w[..|a|] == a;
    assert w[|a| + 1..|a| + 1 + |c|] == c;
  }

  lemma ConsTake<T>(x: T, s: seq<T>, n: nat)
    requires n <= |s|
    ensures ([x] + s)[..n + 1] == [x] + s[..n]
    ensures ([x] + s)[0] == x && ([x] + s)[1..] == s
  {
  }

  lemma TakeOne<T>(s: seq<T>, t: seq<T>)
    requires s != []
    ensures s[..1] == [s[0]]
    ensures (s + t)[..1] == [s[0]] && (s + t)[0] == s[0]
  {
  }

  lemma Uncons<T>(s: seq<T>)
    requires s != []
    ensures s == [s[0]] + s[1..]
  {
  }

  lemma TakeTake<T>(s: seq<T>, i: nat, j: nat)
    requires i <= j <= |s|
    ensures s[..j][..i] == s[..i]
  {
  }

  lemma InsertPair<T>(pre: seq<T>, mid: seq<T>, post: seq<T>, x: T, y: T, b: seq<T>)
    requires b == pre + mid + post
    ensures |pre| <= |b| && |pre| + 1 <= |b[..|pre|] + [x] + b[|pre|..]|
    ensures (b[..|pre|] + [x] + b[|pre|..])[..|pre| + 1] + [y] + (b[..|pre|] + [x] + b[|pre|..])[|pre| + 1..]
            == pre + ([x, y] + mid) + post
  {
    assert b[..|pre|] == pre && b[|pre|..] == mid + post;
    var b1 := b[..|pre|] + [x] + b[|pre|..];
    assert b1[..|pre| + 1] == pre + [x] && b1[|pre| + 1..] == mid + post;
  }

  lemma InsertIndex<T>(a: seq<T>, k: nat, x: T, j: nat)
    requires k <= |a| && j <= |a|
    ensures |a[..k] + [x] + a[k..]| == |a| + 1
    ensures j < k ==> (a[..k] + [x] + a[k..])[j] == a[j]
    ensures j == k ==> (a[..k] + [x] + a[k..])[j] == x
    ensures k < j ==> (a[..k] + [x] + a[k..])[j] == a[j - 1]
  {
  }
}
