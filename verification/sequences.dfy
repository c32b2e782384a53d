/** Scanning and filtering over sequences: the primitives the string helpers
    and the key-file selection are built from. */
module Sequences {

  /** The index of the first element at or after `from` that satisfies
      `stop`, or `|s|` when there is none. */
  function Find<T>(s: seq<T>, from: nat, stop: T -> bool): (k: nat)
    requires from <= |s|
    ensures from <= k <= |s|
    ensures forall i :: from <= i < k ==> !stop(s[i])
    ensures k < |s| ==> stop(s[k])
    decreases |s| - from
  {
    if from == |s| || stop(s[from]) then from else Find(s, from + 1, stop)
  }

  /** `Find` returns the only index that satisfies its contract. */
  lemma FindIs<T>(s: seq<T>, from: nat, stop: T -> bool, k: int)
    requires from <= k <= |s|
    requires forall i :: from <= i < k ==> !stop(s[i])
    requires k < |s| ==> stop(s[k])
    ensures Find(s, from, stop) == k
  {
  }

  /** One past the last element before `upTo` that satisfies `stop`, or 0
      when there is none. */
  function FindBack<T>(s: seq<T>, upTo: nat, stop: T -> bool): (k: nat)
    requires upTo <= |s|
    ensures k <= upTo
    ensures forall i :: k <= i < upTo ==> !stop(s[i])
    ensures k > 0 ==> stop(s[k - 1])
    decreases upTo
  {
    if upTo == 0 || stop(s[upTo - 1]) then upTo else FindBack(s, upTo - 1, stop)
  }

  /** `k` is the position of the first element of `s` that satisfies `keep`. */
  ghost predicate IsFirst<T>(s: seq<T>, keep: T -> bool, k: int) {
    0 <= k < |s| && keep(s[k]) && forall j :: 0 <= j < k ==> !keep(s[j])
  }

  /** There is only one first element. */
  lemma IsFirstUnique<T>(s: seq<T>, keep: T -> bool, k1: int, k2: int)
    requires IsFirst(s, keep, k1) && IsFirst(s, keep, k2)
    ensures k1 == k2
  {
  }

  /** The elements of `s` that satisfy `keep`, in their original order
      (Ruby's `select`). */
  function Filter<T(==)>(s: seq<T>, keep: T -> bool): (r: seq<T>)
    ensures |r| <= |s|
    ensures forall i :: 0 <= i < |r| ==> keep(r[i])
    ensures r == [] <==> forall i :: 0 <= i < |s| ==> !keep(s[i])
    ensures r != [] ==> exists k :: IsFirst(s, keep, k) && r[0] == s[k]
  {
    if s == [] then []
    else if keep(s[0]) then
      assert IsFirst(s, keep, 0);
      [s[0]] + Filter(s[1..], keep)
    else
      assert forall i :: 1 <= i < |s| ==> s[i] == s[1..][i - 1];
      assert forall k :: IsFirst(s[1..], keep, k) ==> IsFirst(s, keep, k + 1);
      Filter(s[1..], keep)
  }

  /** Concatenation regroups; stated generically so that callers with large
      contexts need not rediscover it. */
  lemma ConcatAssociative<T>(a: seq<T>, b: seq<T>, c: seq<T>)
    ensures a + (b + c) == (a + b) + c
  {
  }
}
