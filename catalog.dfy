/**
 * The catalog's data model and `Array.prototype.filter`, with the facts
 * both browsing screens rely on: the result keeps exactly the elements the
 * predicate accepts, in their original order.
 */
module Catalog {

  /** One record of the static movie list; its field names are the dataset's. */
  datatype Movie = Movie(
    titre: string,
    annee: string,
    genres: string,
    acteurs: string,
    synopsis: string,
    affiche: string)

  /** `Array.prototype.filter`: the elements of `s` that `p` accepts, in order. */
  function Filter<T>(s: seq<T>, p: T -> bool): (r: seq<T>)
    ensures |r| <= |s|
  {
    if s == [] then []
    else if p(s[0]) then [s[0]] + Filter(s[1..], p)
    else Filter(s[1..], p)
  }

  /** The elements of `s` that `p` rejects: what a filter leaves out. */
  function Reject<T(!new)>(s: seq<T>, p: T -> bool): (r: seq<T>)
    ensures |r| <= |s|
    ensures forall x :: x in r ==> x in s
    ensures forall x :: x in s ==> (x in r <==> !p(x))
  {
    var keep := x => !p(x);
    FilterMembership(s, keep);
    Filter(s, keep)
  }

  /**
   * `idx` lists, in strictly increasing order, positions of `s` whose
   * elements spell out `r`.
   */
  ghost predicate Embeds<T>(r: seq<T>, s: seq<T>, idx: seq<nat>) {
    && |idx| == |r|
    && (forall k :: 0 <= k < |idx| ==> idx[k] < |s| && s[idx[k]] == r[k])
    && (forall k, l :: 0 <= k < l < |idx| ==> idx[k] < idx[l])
  }

  /** `r` is obtained from `s` by deleting elements, without reordering. */
  ghost predicate IsSubsequence<T>(r: seq<T>, s: seq<T>) {
    exists idx :: Embeds(r, s, idx)
  }

  /** Every position moved one place to the right. */
  function Shift(idx: seq<nat>): seq<nat> {
    seq(|idx|, k requires 0 <= k < |idx| => idx[k] + 1)
  }

  /** An embedding into the tail of `s`, shifted by one, is an embedding into `s`. */
  lemma EmbedsShift<T>(r: seq<T>, s: seq<T>, tail: seq<nat>)
    requires s != [] && Embeds(r, s[1..], tail)
    ensures Embeds(r, s, Shift(tail))
    ensures Embeds([s[0]] + r, s, [0] + Shift(tail))
  {
  }

  /** Position `i` of `s` is in a shifted list exactly when `i - 1` is in the unshifted one. */
  lemma ShiftMembers(tail: seq<nat>, i: nat)
    ensures i in Shift(tail) <==> i >= 1 && i - 1 in tail
  {
    var shifted := Shift(tail);
    if i in shifted {
      var k :| 0 <= k < |shifted| && shifted[k] == i;
      assert tail[k] == i - 1;
    }
    if i >= 1 && i - 1 in tail {
      var k :| 0 <= k < |tail| && tail[k] == i - 1;
      assert shifted[k] == i;
    }
  }

  /**
   * The positions of `s` that `p` accepts, in increasing order: exactly the
   * positions from which `Filter` takes its result.
   */
  function Positions<T>(s: seq<T>, p: T -> bool): (idx: seq<nat>)
    ensures Embeds(Filter(s, p), s, idx)
    ensures forall i :: 0 <= i < |s| ==> (i in idx <==> p(s[i]))
  {
    if s == [] then []
    else
      var tail := Positions(s[1..], p);
      EmbedsShift(Filter(s[1..], p), s, tail);
      assert forall i :: 0 <= i < |s| ==> (i in Shift(tail) <==> i >= 1 && i - 1 in tail) by {
        forall i | 0 <= i < |s| ensures i in Shift(tail) <==> i >= 1 && i - 1 in tail {
          ShiftMembers(tail, i);
        }
      }
      assert forall i :: 1 <= i < |s| ==> s[i] == s[1..][i - 1];
      if p(s[0]) then [0] + Shift(tail) else Shift(tail)
  }

  /** Filtering keeps order: its result is a subsequence of the input. */
  lemma FilterIsSubsequence<T>(s: seq<T>, p: T -> bool)
    ensures IsSubsequence(Filter(s, p), s)
  {
    var idx := Positions(s, p);
  }

  /** An element is in the result exactly when it is in the input and accepted. */
  lemma {:induction false} FilterMembership<T>(s: seq<T>, p: T -> bool)
    ensures forall x :: x in Filter(s, p) <==> x in s && p(x)
  {
    if s != [] {
      FilterMembership(s[1..], p);
      assert s == [s[0]] + s[1..];
    }
  }

  /**
   * Each element occurs in the result as often as in the input when it is
   * accepted, and not at all when it is rejected.
   */
  lemma {:induction false} FilterCount<T>(s: seq<T>, p: T -> bool, x: T)
    ensures multiset(Filter(s, p))[x] == if p(x) then multiset(s)[x] else 0
  {
    if s != [] {
      FilterCount(s[1..], p, x);
      assert s == [s[0]] + s[1..];
    }
  }

  /** The kept and the rejected elements together are the input, counted with multiplicity. */
  lemma {:induction false} FilterPartition<T(!new)>(s: seq<T>, p: T -> bool)
    ensures multiset(Filter(s, p)) + multiset(Reject(s, p)) == multiset(s)
    ensures |Filter(s, p)| + |Reject(s, p)| == |s|
  {
    if s != [] {
      FilterPartition(s[1..], p);
      assert s == [s[0]] + s[1..];
    }
  }

  /** A predicate that accepts every element leaves the input unchanged. */
  lemma {:induction false} FilterAll<T>(s: seq<T>, p: T -> bool)
    requires forall x :: x in s ==> p(x)
    ensures Filter(s, p) == s
  {
    if s != [] {
      FilterAll(s[1..], p);
      assert s == [s[0]] + s[1..];
    }
  }

  /** Two predicates that agree on every element of the input filter it alike. */
  lemma {:induction false} FilterCongruent<T>(s: seq<T>, p: T -> bool, q: T -> bool)
    requires forall x :: x in s ==> p(x) == q(x)
    ensures Filter(s, p) == Filter(s, q)
  {
    if s != [] {
      FilterCongruent(s[1..], p, q);
    }
  }
}
