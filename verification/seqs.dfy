/** Sequence helpers shared by the stage models. */
module Seqs {

  predicate NoDup<T(==)>(s: seq<T>)
  {
    forall i, j :: 0 <= i < j < |s| ==> s[i] != s[j]
  }

  /** The position of the first occurrence of `x` in `s`. */
  function IndexOf<T(==)>(s: seq<T>, x: T): (k: nat)
    requires x in s
    ensures k < |s| && s[k] == x && forall j :: 0 <= j < k ==> s[j] != x
  {
    if s[0] == x then 0 else 1 + IndexOf(s[1..], x)
  }

  /** A position holding `x` with no `x` before it is the first occurrence. */
  lemma IndexOfUnique<T>(s: seq<T>, x: T, k: nat)
    requires k < |s| && s[k] == x && forall j :: 0 <= j < k ==> s[j] != x
    ensures IndexOf(s, x) == k
  {
  }

  /** Inserting an element already in `acc` between `acc` and `u` shifts the
      first occurrence of every later element by one and of no earlier one. */
  lemma IndexOfSkip<T>(acc: seq<T>, y: T, u: seq<T>, x: T)
    requires y in acc && x in acc + u
    ensures x in acc ==> IndexOf(acc + [y] + u, x) == IndexOf(acc + u, x) < |acc|
    ensures x !in acc ==> IndexOf(acc + [y] + u, x) == IndexOf(acc + u, x) + 1 > |acc|
  {
    var t := acc + [y] + u;
    var k := IndexOf(acc + u, x);
    if x in acc {
      var j :| 0 <= j < |acc| && acc[j] == x;
      assert (acc + u)[j] == x && k <= j;
      assert forall i :: 0 <= i < k ==> t[i] == (acc + u)[i];
      IndexOfUnique(t, x, k);
    } else {
      assert forall j :: 0 <= j < |acc| ==> (acc + u)[j] != x;
      assert t[k + 1] == (acc + u)[k];
      assert forall j :: |acc| < j <= k ==> t[j] == (acc + u)[j - 1];
      IndexOfUnique(t, x, k + 1);
    }
  }

  /** Elements of a duplicate-free list sit at their own first occurrence. */
  lemma IndexOfNoDup<T>(acc: seq<T>, u: seq<T>, i: nat)
    requires NoDup(acc) && i < |acc|
    ensures IndexOf(acc + u, acc[i]) == i
  {
    IndexOfUnique(acc + u, acc[i], i);
  }

  /** `a` and `b` both occur in `t`, and `a` occurs first. */
  predicate Earlier<T(==)>(t: seq<T>, a: T, b: T)
  {
    a in t && b in t && IndexOf(t, a) < IndexOf(t, b)
  }

  /** `r` lists elements of `t` in the order of their first occurrence in `t`. */
  predicate InFirstOrder<T(==)>(r: seq<T>, t: seq<T>)
  {
    forall i, j :: 0 <= i < j < |r| ==> Earlier(t, r[i], r[j])
  }

  /** A duplicate-free list is in first-occurrence order with respect to itself. */
  lemma NoDupInFirstOrder<T>(acc: seq<T>)
    requires NoDup(acc)
    ensures InFirstOrder(acc, acc)
  {
    assert acc + [] == acc;
    forall i, j | 0 <= i < j < |acc| ensures Earlier(acc, acc[i], acc[j]) {
      IndexOfNoDup(acc, [], i);
      IndexOfNoDup(acc, [], j);
    }
  }

  /** Inserting an element already in `acc` keeps two elements' first occurrences in order. */
  lemma EarlierSkip<T>(acc: seq<T>, y: T, u: seq<T>, a: T, b: T)
    requires y in acc && Earlier(acc + u, a, b)
    ensures Earlier(acc + [y] + u, a, b)
  {
    IndexOfSkip(acc, y, u, a);
    IndexOfSkip(acc, y, u, b);
  }

  /** Skipping an element already in `acc` keeps the first-occurrence order. */
  lemma InFirstOrderSkip<T>(r: seq<T>, acc: seq<T>, y: T, u: seq<T>)
    requires y in acc && InFirstOrder(r, acc + u)
    ensures InFirstOrder(r, acc + [y] + u)
  {
    forall i, j | 0 <= i < j < |r| ensures Earlier(acc + [y] + u, r[i], r[j]) {
      EarlierSkip(acc, y, u, r[i], r[j]);
    }
  }

  /** Appending an element not yet present keeps a list duplicate-free. */
  lemma NoDupAppendOne<T>(acc: seq<T>, x: T)
    requires NoDup(acc)
    ensures x !in acc ==> NoDup(acc + [x])
  {
  }

  /** One step of the idiom: what holds of the list built from `acc'` and
      the rest of the input holds of the list built from `acc` and all of it. */
  lemma AppendNewStep<T>(acc: seq<T>, s: seq<T>, r: seq<T>)
    requires |s| > 0
    requires var acc' := if s[0] in acc then acc else acc + [s[0]];
             && (forall x :: x in r <==> x in acc' || x in s[1..])
             && |acc'| <= |r| && r[..|acc'|] == acc'
             && InFirstOrder(r, acc' + s[1..])
    ensures forall x :: x in r <==> x in acc || x in s
    ensures |acc| <= |r| && r[..|acc|] == acc
    ensures InFirstOrder(r, acc + s)
  {
    var acc' := if s[0] in acc then acc else acc + [s[0]];
    assert acc'[..|acc|] == acc;
    assert forall x :: x in s <==> x == s[0] || x in s[1..];
    assert r[..|acc|] == r[..|acc'|][..|acc|];
    if s[0] in acc {
      assert acc + s == acc + [s[0]] + s[1..];
      InFirstOrderSkip(r, acc, s[0], s[1..]);
    } else {
      assert acc' + s[1..] == acc + s;
    }
  }

  /** The list-building idiom `if x not in l: l.append(x)` run over `s`,
      starting from `acc`: every element appears once, in the order of its
      first occurrence, after the elements already in `acc`. */
  function AppendNew<T(==,!new)>(acc: seq<T>, s: seq<T>): (r: seq<T>)
    requires NoDup(acc)
    ensures NoDup(r)
    ensures forall x :: x in r <==> x in acc || x in s
    ensures |acc| <= |r| && r[..|acc|] == acc
    ensures InFirstOrder(r, acc + s)
    decreases |s|
  {
    if |s| == 0 then
      assert acc + s == acc;
      NoDupInFirstOrder(acc);
      acc
    else
      var acc' := if s[0] in acc then acc else acc + [s[0]];
      NoDupAppendOne(acc, s[0]);
      var r := AppendNew(acc', s[1..]);
      AppendNewStep(acc, s, r);
      r
  }

  /** The distinct elements of `s` in first-occurrence order. */
  function Distinct<T(==,!new)>(s: seq<T>): (r: seq<T>)
    ensures NoDup(r)
    ensures forall x :: x in r <==> x in s
    ensures InFirstOrder(r, s)
  {
    assert [] + s == s;
    AppendNew([], s)
  }
}
