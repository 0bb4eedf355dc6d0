/**
 * Python's filtering list comprehension, `[x for x in s if keep(x)]`, and the flattening of
 * nested loops that each produce a sequence, with what they promise.
 */
module Seqs {

  /** `a` can be obtained from `b` by deleting elements, keeping the order of the rest. */
  predicate IsSubsequence<T(==)>(a: seq<T>, b: seq<T>)
    decreases |b|
  {
    if a == [] then true
    else if b == [] then false
    else if a[0] == b[0] then IsSubsequence(a[1..], b[1..])
    else IsSubsequence(a, b[1..])
  }

  /**
   * `[x for x in s if keep(x)]`: an order-preserving subsequence of `s` made of elements
   * that `keep` accepts.
   */
  function Filter<T(==)>(keep: T -> bool, s: seq<T>): (r: seq<T>)
    ensures forall x :: x in r ==> x in s && keep(x)
    ensures IsSubsequence(r, s)
  {
    if s == [] then []
    else
      var rest := Filter(keep, s[1..]);
      if keep(s[0]) then
        assert ([s[0]] + rest)[1..] == rest;
        [s[0]] + rest
      else
        rest
  }

  /** The filter keeps every accepted element as many times as it occurs, and drops the rest. */
  lemma {:induction false} FilterCount<T>(keep: T -> bool, s: seq<T>, x: T)
    ensures multiset(Filter(keep, s))[x] == if keep(x) then multiset(s)[x] else 0
  {
    if s != [] {
      assert s == [s[0]] + s[1..];
      FilterCount(keep, s[1..], x);
    }
  }

  /** Filtering a sequence whose every element is kept returns it unchanged. */
  lemma {:induction false} FilterKeepsKept<T>(keep: T -> bool, s: seq<T>)
    requires forall x :: x in s ==> keep(x)
    ensures Filter(keep, s) == s
  {
    if s != [] {
      FilterKeepsKept(keep, s[1..]);
    }
  }

  /** Filtering twice equals filtering once. */
  lemma FilterIdempotent<T>(keep: T -> bool, s: seq<T>)
    ensures Filter(keep, Filter(keep, s)) == Filter(keep, s)
  {
    FilterKeepsKept(keep, Filter(keep, s));
  }

  /** Filtering distributes over concatenation. */
  lemma {:induction false} FilterAppend<T>(keep: T -> bool, a: seq<T>, b: seq<T>)
    ensures Filter(keep, a + b) == Filter(keep, a) + Filter(keep, b)
  {
    if a != [] {
      assert (a + b)[0] == a[0] && (a + b)[1..] == a[1..] + b;
      FilterAppend(keep, a[1..], b);
      var head := if keep(a[0]) then [a[0]] else [];
      calc {
        Filter(keep, a + b);
        head + Filter(keep, a[1..] + b);
        head + (Filter(keep, a[1..]) + Filter(keep, b));
        (head + Filter(keep, a[1..])) + Filter(keep, b);
      }
    } else {
      assert a + b == b;
    }
  }

  /** The concatenation, in order, of the sequences of `xss`: what a loop whose iterations each produce a sequence produces. */
  function Flatten<T>(xss: seq<seq<T>>): seq<T>
  {
    if xss == [] then [] else Flatten(xss[..|xss| - 1]) + xss[|xss| - 1]
  }

  /** The index of the first `true` of `stop`, or `|stop|` when there is none. */
  function FirstStop(stop: seq<bool>): (n: nat)
    ensures n <= |stop|
    ensures forall i :: 0 <= i < n ==> !stop[i]
    ensures n < |stop| ==> stop[n]
  {
    if stop == [] || stop[0] then 0 else 1 + FirstStop(stop[1..])
  }

  /**
   * How many iterations a loop runs when an exception raised in an iteration ends it:
   * all of them when none raises, otherwise up to and including the first that raises.
   */
  function Taken(stop: seq<bool>): (n: nat)
    ensures n <= |stop|
    ensures forall i :: 0 <= i < n - 1 ==> !stop[i]
    ensures n < |stop| ==> n >= 1 && stop[n - 1]
  {
    if FirstStop(stop) < |stop| then FirstStop(stop) + 1 else |stop|
  }

  /** An iteration runs when none before it raises. */
  lemma TakenCovers(stop: seq<bool>, k: nat)
    requires k < |stop| && forall j :: 0 <= j < k ==> !stop[j]
    ensures k < Taken(stop)
  {
  }

  /** The loop ends early exactly when some iteration raises. */
  lemma {:induction false} FirstStopFound(stop: seq<bool>, k: nat)
    requires k < |stop| && stop[k]
    ensures FirstStop(stop) <= k
  {
  }

  /** Whether a loop that ends after its first stopping iteration has run exactly `n` iterations of `stop`. */
  predicate RanUntilStop(stop: seq<bool>, n: nat, stopped: bool)
  {
    n <= |stop| && (forall j :: 0 <= j < n - 1 ==> !stop[j]) && (stopped <==> n > 0 && stop[n - 1])
  }

  /** One more iteration of such a loop. */
  lemma RanOneMore(stop: seq<bool>, n: nat, stopped: bool)
    requires RanUntilStop(stop, n, false) && n < |stop| && stopped == stop[n]
    ensures RanUntilStop(stop, n + 1, stopped)
  {
  }

  /** When such a loop exits, it has run `Taken(stop)` iterations. */
  lemma RanTaken(stop: seq<bool>, n: nat, stopped: bool)
    requires RanUntilStop(stop, n, stopped) && (n == |stop| || stopped)
    ensures n == Taken(stop)
  {
  }

  /** One more iteration appends its sequence. */
  lemma FlattenStep<T>(xss: seq<seq<T>>, n: nat)
    requires n < |xss|
    ensures Flatten(xss[..n + 1]) == Flatten(xss[..n]) + xss[n]
  {
    assert xss[..n + 1][..n] == xss[..n];
  }

  /** Whatever an iteration produces is in the whole. */
  lemma {:induction false} FlattenIncludes<T>(xss: seq<seq<T>>, j: nat, x: T)
    requires j < |xss| && x in xss[j]
    ensures x in Flatten(xss)
  {
    if j < |xss| - 1 {
      FlattenIncludes(xss[..|xss| - 1], j, x);
    }
  }

  /** Whatever is in the whole was produced by some iteration. */
  lemma {:induction false} FlattenMember<T>(xss: seq<seq<T>>, x: T) returns (j: nat)
    requires x in Flatten(xss)
    ensures j < |xss| && x in xss[j]
  {
    var init := xss[..|xss| - 1];
    if x in Flatten(init) {
      j := FlattenMember(init, x);
    } else {
      j := |xss| - 1;
    }
  }
}
