/** Sequence helpers shared by the walks: duplicate-free insertion (the
    behaviour of java.util.LinkedHashSet.add), concatenation and counting. */
module Seqs {

  /** No element occurs twice. */
  predicate NoDup<T(==)>(s: seq<T>) {
    forall i, j :: 0 <= i < j < |s| ==> s[i] != s[j]
  }

  /** Adds the elements of `s`, in order, to the insertion-ordered set `acc`,
      skipping those already present. */
  function DedupOnto<T(==)>(acc: seq<T>, s: seq<T>): (r: seq<T>)
    ensures |acc| <= |r| && r[..|acc|] == acc
    decreases |s|
  {
    if s == [] then acc
    else DedupOnto(if s[0] in acc then acc else acc + [s[0]], s[1..])
  }

  /** The result holds exactly the elements of `acc` and `s`, and stays
      duplicate-free. */
  lemma {:induction false} DedupOntoContents<T>(acc: seq<T>, s: seq<T>)
    ensures forall x :: x in DedupOnto(acc, s) <==> x in acc || x in s
    ensures NoDup(acc) ==> NoDup(DedupOnto(acc, s))
    decreases |s|
  {
    if s != [] {
      var acc' := if s[0] in acc then acc else acc + [s[0]];
      DedupOntoContents(acc', s[1..]);
      assert forall x :: x in s <==> x == s[0] || x in s[1..];
      if NoDup(acc) && s[0] !in acc {
        forall i, j | 0 <= i < j < |acc'| ensures acc'[i] != acc'[j] {
          if j == |acc| { assert acc'[i] in acc; }
        }
      }
    }
  }

  /** Number of occurrences of `x` in `s`. */
  function Count<T(==)>(s: seq<T>, x: T): nat {
    if s == [] then 0 else (if s[0] == x then 1 else 0) + Count(s[1..], x)
  }

  lemma {:induction false} CountAppend<T>(a: seq<T>, b: seq<T>, x: T)
    ensures Count(a + b, x) == Count(a, x) + Count(b, x)
    decreases |a|
  {
    if a == [] {
      assert a + b == b;
    } else {
      assert (a + b)[1..] == a[1..] + b;
      CountAppend(a[1..], b, x);
    }
  }

  lemma {:induction false} CountPositive<T>(s: seq<T>, x: T)
    ensures x in s <==> Count(s, x) > 0
    decreases |s|
  {
    if s != [] {
      CountPositive(s[1..], x);
      assert x in s <==> s[0] == x || x in s[1..];
    }
  }

  lemma {:induction false} DedupOntoAppend<T>(acc: seq<T>, a: seq<T>, b: seq<T>)
    ensures DedupOnto(acc, a + b) == DedupOnto(DedupOnto(acc, a), b)
    decreases |a|
  {
    if a == [] {
      assert a + b == b;
    } else {
      assert (a + b)[0] == a[0];
      assert (a + b)[1..] == a[1..] + b;
      DedupOntoAppend(if a[0] in acc then acc else acc + [a[0]], a[1..], b);
    }
  }

  /** Adding elements that are all present already changes nothing. */
  lemma {:induction false} DedupOntoCovered<T>(acc: seq<T>, s: seq<T>)
    requires forall x :: x in s ==> x in acc
    ensures DedupOnto(acc, s) == acc
    decreases |s|
  {
    if s != [] {
      assert s[0] in s;
      DedupOntoCovered(acc, s[1..]);
    }
  }

  /** Adding duplicate-free elements none of which is present appends them. */
  lemma {:induction false} DedupOntoFresh<T>(acc: seq<T>, s: seq<T>)
    requires NoDup(s)
    requires forall x :: x in s ==> x !in acc
    ensures DedupOnto(acc, s) == acc + s
    decreases |s|
  {
    if s == [] {
      assert acc + s == acc;
    } else {
      assert s[0] in s;
      forall x | x in s[1..] ensures x !in acc + [s[0]] {
        var k :| 0 <= k < |s[1..]| && s[1..][k] == x;
        assert s[k + 1] == x;
      }
      DedupOntoFresh(acc + [s[0]], s[1..]);
      assert acc + [s[0]] + s[1..] == acc + s;
    }
  }

}
