/**
 * The stable partition behind `filterInPlace` (src/DependencyGraph.ts):
 * `Filter` is the specification (the elements that pass, in their original
 * order), `FilterInPlace` is the write-index loop of the source.
 */
module Filtering {

  /** The elements of `s` satisfying `p`, in their order in `s`. */
  function Filter<T>(s: seq<T>, p: T -> bool): (r: seq<T>)
    ensures |r| <= |s|
  {
    if s == [] then []
    else
      var init := Filter(s[..|s| - 1], p);
      if p(s[|s| - 1]) then init + [s[|s| - 1]] else init
  }

  /** The complement of a test: what `filterInPlace` pushes onto the backup. */
  function Negate<T>(p: T -> bool): T -> bool
  {
    x => !p(x)
  }

  /** Both tests at once: the effect of two successive filters. */
  function Both<T>(p: T -> bool, q: T -> bool): T -> bool
  {
    x => p(x) && q(x)
  }

  lemma FilterSnoc<T>(s: seq<T>, x: T, p: T -> bool)
    ensures Filter(s + [x], p) == Filter(s, p) + (if p(x) then [x] else [])
  {
  }

  /** Filtering distributes over concatenation: the order of the input is kept. */
  lemma {:induction false} FilterConcat<T>(a: seq<T>, b: seq<T>, p: T -> bool)
    ensures Filter(a + b, p) == Filter(a, p) + Filter(b, p)
  {
    if b == [] {
      assert a + b == a;
    } else {
      var init, x := b[..|b| - 1], b[|b| - 1];
      assert b == init + [x];
      assert a + b == (a + init) + [x];
      FilterConcat(a, init, p);
      FilterSnoc(a + init, x, p);
      FilterSnoc(init, x, p);
    }
  }

  /** An element survives the filter iff it was in the input and passes the test. */
  lemma {:induction false} FilterMembership<T>(s: seq<T>, p: T -> bool, x: T)
    ensures x in Filter(s, p) <==> x in s && p(x)
  {
    if s != [] {
      var init := s[..|s| - 1];
      assert s == init + [s[|s| - 1]];
      FilterMembership(init, p, x);
    }
  }

  /** Every element of the result passes the test. */
  lemma FilterAllPass<T>(s: seq<T>, p: T -> bool)
    ensures forall x :: x in Filter(s, p) ==> p(x)
  {
  }

  /** The filter keeps nothing iff no element passes. */
  lemma FilterEmpty<T>(s: seq<T>, p: T -> bool)
    ensures Filter(s, p) == [] <==> forall i :: 0 <= i < |s| ==> !p(s[i])
  {
  }

  /**
   * Kept and rejected elements together are a permutation of the input:
   * nothing is lost and nothing is duplicated.
   */
  lemma {:induction false} FilterPartition<T>(s: seq<T>, p: T -> bool)
    ensures multiset(Filter(s, p)) + multiset(Filter(s, Negate(p))) == multiset(s)
  {
    if s != [] {
      var init, x := s[..|s| - 1], s[|s| - 1];
      assert s == init + [x];
      FilterPartition(init, p);
    }
  }

  /** A second filter narrows the first: filtering twice tests both. */
  lemma {:induction false} FilterTwice<T>(s: seq<T>, p: T -> bool, q: T -> bool)
    ensures Filter(Filter(s, p), q) == Filter(s, Both(p, q))
  {
    if s != [] {
      var init, x := s[..|s| - 1], s[|s| - 1];
      assert s == init + [x];
      FilterTwice(init, p, q);
      if p(x) {
        FilterSnoc(Filter(init, p), x, q);
      }
    }
  }

  /**
   * `filterInPlace`: walks `items` with a read index, copies each element that
   * passes to the write index `replaceIndex` (overwriting in place), pushes each
   * element that fails onto the backup, and truncates to `replaceIndex` at the end.
   */
  method FilterInPlace<T>(items: seq<T>, backup: seq<T>, condition: T -> bool)
    returns (kept: seq<T>, backupAfter: seq<T>)
    ensures kept == Filter(items, condition)
    ensures backupAfter == backup + Filter(items, Negate(condition))
    ensures multiset(kept) + multiset(backupAfter) == multiset(items) + multiset(backup)
  {
    var a := items;
    backupAfter := backup;
    var replaceIndex := 0;
    var index := 0;
    while index < |a|
      invariant |a| == |items|
      invariant 0 <= replaceIndex <= index <= |a|
      invariant a[..replaceIndex] == Filter(items[..index], condition)
      invariant forall k :: index <= k < |a| ==> a[k] == items[k]
      invariant backupAfter == backup + Filter(items[..index], Negate(condition))
    {
      var elem := a[index];
      KeepOrBackUp(items, index, condition);
      if condition(elem) {
        a := a[replaceIndex := elem];
        replaceIndex := replaceIndex + 1;
      } else {
        backupAfter := backupAfter + [elem];
      }
      index := index + 1;
    }
    assert items[..index] == items;
    kept := a[..replaceIndex];
    FilterPartition(items, condition);
  }

  /** One step of `FilterInPlace`: the next element joins the kept or the rejected ones. */
  lemma KeepOrBackUp<T>(items: seq<T>, index: nat, condition: T -> bool)
    requires index < |items|
    ensures Filter(items[..index + 1], condition)
            == Filter(items[..index], condition) + (if condition(items[index]) then [items[index]] else [])
    ensures Filter(items[..index + 1], Negate(condition))
            == Filter(items[..index], Negate(condition)) + (if condition(items[index]) then [] else [items[index]])
  {
    assert items[..index + 1] == items[..index] + [items[index]];
    FilterSnoc(items[..index], items[index], condition);
    FilterSnoc(items[..index], items[index], Negate(condition));
  }

  /** Pushes every element of `items`, in order, onto the end of `target`. */
  method PushAll<T>(target: seq<T>, items: seq<T>) returns (r: seq<T>)
    ensures r == target + items
  {
    r := target;
    for i := 0 to |items|
      invariant r == target + items[..i]
    {
      assert items[..i + 1] == items[..i] + [items[i]];
      r := r + [items[i]];
    }
    assert items[..|items|] == items;
  }
}
