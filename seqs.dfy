/**
 * Sequence facts shared by the cart and the menu page: counting occurrences,
 * the first-occurrence order of a Python dict's keys, and list.remove.
 */
module Seqs {

  /** Occurrences of x in s. */
  function Count<T(==)>(s: seq<T>, x: T): (n: nat)
    ensures n <= |s|
    ensures n == 0 <==> x !in s
  {
    if s == [] then 0 else Count(s[..|s| - 1], x) + (if s[|s| - 1] == x then 1 else 0)
  }

  /** Count agrees with the multiplicity in the multiset of s. */
  lemma {:induction false} CountIsMultiplicity<T>(s: seq<T>, x: T)
    ensures Count(s, x) == multiset(s)[x]
  {
    if s != [] {
      var p := s[..|s| - 1];
      CountIsMultiplicity(p, x);
      assert s == p + [s[|s| - 1]];
    }
  }

  predicate NoDuplicates<T(==)>(s: seq<T>) {
    forall i, j :: 0 <= i < j < |s| ==> s[i] != s[j]
  }

  /** Index of the first x in s. */
  function FirstIndex<T(==)>(s: seq<T>, x: T): (i: nat)
    requires x in s
    ensures i < |s| && s[i] == x && x !in s[..i]
  {
    if s[0] == x then 0
    else
      var k := FirstIndex(s[1..], x);
      assert s[..k + 1] == [s[0]] + s[1..][..k];
      k + 1
  }

  /** Appending elements does not move the first occurrence of one already present. */
  lemma FirstIndexAppend<T>(s: seq<T>, t: seq<T>, x: T)
    requires x in s
    ensures FirstIndex(s + t, x) == FirstIndex(s, x)
  {
    var i := FirstIndex(s, x);
    var j := FirstIndex(s + t, x);
    assert (s + t)[..i] == s[..i];
    assert (s + t)[i] == x && (s + t)[j] == x;
    assert forall k :: 0 <= k < i ==> (s + t)[k] != x by {
      forall k | 0 <= k < i ensures (s + t)[k] != x {
        assert (s + t)[k] == s[..i][k];
      }
    }
    assert forall k :: 0 <= k < j ==> (s + t)[k] != x by {
      forall k | 0 <= k < j ensures (s + t)[k] != x {
        assert (s + t)[k] == (s + t)[..j][k];
      }
    }
  }

  /**
   * The distinct elements of s in order of first occurrence: the key order of
   * a Python dict filled by iterating over s.
   */
  function Distinct<T(==, !new)>(s: seq<T>): (d: seq<T>)
    ensures NoDuplicates(d)
    ensures forall x :: x in d <==> x in s
    ensures |d| <= |s|
  {
    if s == [] then []
    else
      var p, x := Distinct(s[..|s| - 1]), s[|s| - 1];
      assert s == s[..|s| - 1] + [x];
      if x in p then p else p + [x]
  }

  /** One more element adds itself to the distinct elements unless it is already there. */
  lemma DistinctAppend<T(!new)>(s: seq<T>, x: T)
    ensures Distinct(s + [x]) == if x in s then Distinct(s) else Distinct(s) + [x]
  {
    assert (s + [x])[..|s|] == s;
  }

  /** In a sequence without duplicates, an element does not occur before its own index. */
  lemma NotBefore<T>(s: seq<T>, k: nat)
    requires NoDuplicates(s) && k < |s|
    ensures s[k] !in s[..k]
  {
    forall m | 0 <= m < k ensures s[..k][m] != s[k] {
      assert s[..k][m] == s[m];
    }
  }

  /** The keys of Distinct(s) are listed in the order in which they first occur in s. */
  lemma {:induction false} DistinctFirstOccurrenceOrder<T(!new)>(s: seq<T>, i: nat, j: nat)
    requires i < j < |Distinct(s)|
    ensures FirstIndex(s, Distinct(s)[i]) < FirstIndex(s, Distinct(s)[j])
  {
    var p, x := s[..|s| - 1], s[|s| - 1];
    assert s == p + [x];
    var dp := Distinct(p);
    var a, b := Distinct(s)[i], Distinct(s)[j];
    assert a in dp;
    FirstIndexAppend(p, [x], a);
    if b in dp {
      if x !in dp {
        assert j < |dp|;
      }
      assert Distinct(s)[..|dp|] == dp;
      DistinctFirstOccurrenceOrder(p, i, j);
      FirstIndexAppend(p, [x], b);
    } else {
      assert b == x && x !in p;
      assert FirstIndex(s, b) == |p|;
    }
  }

  /** list.remove(x): drops the first occurrence of x, if there is one. */
  function RemoveFirst<T(==)>(s: seq<T>, x: T): (r: seq<T>)
    ensures x !in s ==> r == s
    ensures x in s ==> |r| == |s| - 1
    ensures multiset(r) == multiset(s) - multiset{x}
  {
    if s == [] then []
    else if s[0] == x then
      assert s == [x] + s[1..];
      s[1..]
    else
      assert s == [s[0]] + s[1..];
      [s[0]] + RemoveFirst(s[1..], x)
  }

  /** list.remove(x) cuts s exactly at the first index of x. */
  lemma {:induction false} RemoveFirstAt<T>(s: seq<T>, x: T)
    requires x in s
    ensures RemoveFirst(s, x) == s[..FirstIndex(s, x)] + s[FirstIndex(s, x) + 1..]
  {
    if s[0] != x {
      RemoveFirstAt(s[1..], x);
      var k := FirstIndex(s[1..], x);
      assert FirstIndex(s, x) == k + 1;
      ConsCut(s, k);
    }
  }

  /** Cutting index k out of s[1..] and putting s[0] back cuts index k + 1 out of s. */
  lemma ConsCut<T>(s: seq<T>, k: nat)
    requires k + 1 < |s|
    ensures [s[0]] + (s[1..][..k] + s[1..][k + 1..]) == s[..k + 1] + s[k + 2..]
  {
    assert s[..k + 1] == [s[0]] + s[1..][..k];
    assert s[k + 2..] == s[1..][k + 1..];
  }

  /** Taking one x out leaves every other element's count alone and lowers x's by one. */
  lemma RemoveFirstCount<T>(s: seq<T>, x: T, y: T)
    requires x in s
    ensures Count(RemoveFirst(s, x), y) == if y == x then Count(s, y) - 1 else Count(s, y)
  {
    CountIsMultiplicity(s, y);
    CountIsMultiplicity(RemoveFirst(s, x), y);
  }

  /** The element at index i goes, the rest keep their order: list.pop(i). */
  function RemoveAt<T>(s: seq<T>, i: nat): (r: seq<T>)
    requires i < |s|
    ensures |r| == |s| - 1
    ensures forall k :: 0 <= k < i ==> r[k] == s[k]
    ensures forall k :: i <= k < |r| ==> r[k] == s[k + 1]
  {
    s[..i] + s[i + 1..]
  }

  /** The elements of s whose membership in xs is `inside`, in the order of s. */
  function Keep<T(==)>(s: seq<T>, xs: set<T>, inside: bool): (r: seq<T>)
    ensures |r| <= |s|
    ensures forall i :: 0 <= i < |r| ==> r[i] in s && (r[i] in xs) == inside
    ensures forall i :: 0 <= i < |s| && (s[i] in xs) == inside ==> s[i] in r
  {
    if s == [] then []
    else
      var p, x := s[..|s| - 1], s[|s| - 1];
      assert forall i :: 0 <= i < |s| - 1 ==> s[i] == p[i];
      Keep(p, xs, inside) + (if (x in xs) == inside then [x] else [])
  }

  /** Keep over one more element. */
  lemma KeepStep<T>(s: seq<T>, k: nat, xs: set<T>, inside: bool)
    requires k < |s|
    ensures Keep(s[..k + 1], xs, inside) == Keep(s[..k], xs, inside) + (if (s[k] in xs) == inside then [s[k]] else [])
  {
    assert s[..k + 1][..k] == s[..k];
  }

  /** An element of xs is kept exactly when it occurs. */
  lemma KeepHas<T>(s: seq<T>, xs: set<T>, x: T)
    requires x in xs
    ensures x in Keep(s, xs, true) <==> x in s
  {
    if x in s {
      var n :| 0 <= n < |s| && s[n] == x;
    }
  }

  /** Keep neither repeats an element nor reorders what it keeps. */
  lemma {:induction false} KeepOrder<T>(s: seq<T>, xs: set<T>, inside: bool)
    requires NoDuplicates(s)
    ensures NoDuplicates(Keep(s, xs, inside))
    ensures forall i, j :: 0 <= i < j < |Keep(s, xs, inside)| ==>
      FirstIndex(s, Keep(s, xs, inside)[i]) < FirstIndex(s, Keep(s, xs, inside)[j])
  {
    if s != [] {
      var p, x := s[..|s| - 1], s[|s| - 1];
      assert s == p + [x];
      var kp, r := Keep(p, xs, inside), Keep(s, xs, inside);
      KeepOrder(p, xs, inside);
      assert x !in p;
      forall i, j | 0 <= i < j < |r|
        ensures r[i] != r[j] && FirstIndex(s, r[i]) < FirstIndex(s, r[j])
      {
        assert r[i] == kp[i] && r[i] in p;
        FirstIndexAppend(p, [x], r[i]);
        if j < |kp| {
          assert r[j] == kp[j];
          FirstIndexAppend(p, [x], r[j]);
        } else {
          assert r[j] == x;
        }
      }
    }
  }

  /** Filtering the distinct elements keeps them in order of first occurrence in s. */
  lemma KeepDistinctOrder<T(!new)>(s: seq<T>, xs: set<T>, inside: bool)
    ensures forall i :: 0 <= i < |Keep(Distinct(s), xs, inside)| ==> Keep(Distinct(s), xs, inside)[i] in s
    ensures forall i, j :: 0 <= i < j < |Keep(Distinct(s), xs, inside)| ==>
      FirstIndex(s, Keep(Distinct(s), xs, inside)[i]) < FirstIndex(s, Keep(Distinct(s), xs, inside)[j])
  {
    var d := Distinct(s);
    var r := Keep(d, xs, inside);
    KeepOrder(d, xs, inside);
    forall i, j | 0 <= i < j < |r| ensures FirstIndex(s, r[i]) < FirstIndex(s, r[j]) {
      var ix, iy := FirstIndex(d, r[i]), FirstIndex(d, r[j]);
      DistinctFirstOccurrenceOrder(s, ix, iy);
    }
  }
}
