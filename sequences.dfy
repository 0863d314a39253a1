/**
 * Selecting the elements of a sequence by a mask of booleans, and what such
 * a selection keeps: order, membership, and the multiset of elements.
 */
module Sequences {

  /** The elements `s[i]` with `mask[i] == bit`, in their order in `s`. */
  function Select<T>(s: seq<T>, mask: seq<bool>, bit: bool): (r: seq<T>)
    requires |mask| == |s|
    ensures |r| <= |s|
  {
    if s == [] then []
    else
      var n := |s| - 1;
      Select(s[..n], mask[..n], bit) + (if mask[n] == bit then [s[n]] else [])
  }

  /** Selecting from one more element of a prefix. */
  lemma SelectSnoc<T>(s: seq<T>, mask: seq<bool>, bit: bool, j: nat)
    requires |mask| == |s| && j < |s|
    ensures Select(s[..j + 1], mask[..j + 1], bit)
         == Select(s[..j], mask[..j], bit) + (if mask[j] == bit then [s[j]] else [])
  {
    assert s[..j + 1][..j] == s[..j];
    assert mask[..j + 1][..j] == mask[..j];
  }

  /**
   * A sequence seen as an already processed part `prefix` followed by the
   * unprocessed suffix `s[k..]`: its next element is `s[k]`, and splicing
   * that element out leaves `prefix + s[k + 1..]`.
   */
  lemma SpliceNext<T>(prefix: seq<T>, s: seq<T>, k: nat)
    requires k < |s|
    ensures (prefix + s[k..])[|prefix|] == s[k]
    ensures (prefix + s[k..])[..|prefix|] + (prefix + s[k..])[|prefix| + 1..] == prefix + s[k + 1..]
    ensures prefix + s[k..] == (prefix + [s[k]]) + s[k + 1..]
  {
    assert s[k..] == [s[k]] + s[k + 1..];
    assert (prefix + s[k..])[..|prefix|] == prefix;
    assert (prefix + s[k..])[|prefix| + 1..] == s[k + 1..];
  }

  /** Selecting over one more element whose bit is clear. */
  lemma SelectStepClear<T>(s: seq<T>, mask: seq<bool>, k: nat)
    requires |mask| == |s| && k < |s| && !mask[k]
    ensures Select(s[..k + 1], mask[..k + 1], false) == Select(s[..k], mask[..k], false) + [s[k]]
    ensures Select(s[..k + 1], mask[..k + 1], true) == Select(s[..k], mask[..k], true)
  {
    SelectSnoc(s, mask, false, k);
    SelectSnoc(s, mask, true, k);
  }

  /** Selecting over one more element whose bit is set. */
  lemma SelectStepSet<T>(s: seq<T>, mask: seq<bool>, k: nat)
    requires |mask| == |s| && k < |s| && mask[k]
    ensures Select(s[..k + 1], mask[..k + 1], false) == Select(s[..k], mask[..k], false)
    ensures Select(s[..k + 1], mask[..k + 1], true) == Select(s[..k], mask[..k], true) + [s[k]]
  {
    SelectSnoc(s, mask, false, k);
    SelectSnoc(s, mask, true, k);
  }

  /**
   * One step of a pass that walks `s` splicing out the elements whose mask
   * bit is set, where an element right after a spliced one is skipped (and
   * so has its bit clear). The pass is `done` elements into `s`; the live
   * sequence is the kept elements followed by the rest of `s`. The step
   * visits `s[done]` and advances to `next`.
   */
  lemma SelectAdvance<T>(s: seq<T>, mask: seq<bool>, done: nat, kept: seq<T>, taken: seq<T>)
    returns (next: nat, kept': seq<T>, taken': seq<T>)
    requires |mask| == |s| && done < |s|
    requires kept == Select(s[..done], mask[..done], false) && taken == Select(s[..done], mask[..done], true)
    requires mask[done] && done + 1 < |s| ==> !mask[done + 1]
    ensures done < next <= |s|
    ensures kept' == Select(s[..next], mask[..next], false) && taken' == Select(s[..next], mask[..next], true)
    ensures 0 < next < |s| ==> !mask[next - 1]
    ensures (kept + s[done..])[|kept|] == s[done]
    ensures !mask[done] ==>
              && kept' + s[next..] == kept + s[done..] && taken' == taken && |kept'| == |kept| + 1
    ensures mask[done] ==>
              && kept' + s[next..] == (kept + s[done..])[..|kept|] + (kept + s[done..])[|kept| + 1..]
              && taken' == taken + [s[done]]
              && (|kept'| == |kept| + 1 || (next == |s| && kept' == kept))
  {
    SpliceNext(kept, s, done);
    if !mask[done] {
      SelectStepClear(s, mask, done);
      next, kept', taken' := done + 1, kept + [s[done]], taken;
    } else if done + 1 < |s| {
      SelectStepSet(s, mask, done);
      SelectStepClear(s, mask, done + 1);
      SpliceNext(kept, s, done + 1);
      next, kept', taken' := done + 2, kept + [s[done + 1]], taken + [s[done]];
    } else {
      SelectStepSet(s, mask, done);
      next, kept', taken' := done + 1, kept, taken + [s[done]];
    }
  }

  /** Every selected element sits at an index whose mask bit is `bit`. */
  lemma {:induction false} SelectMembers<T>(s: seq<T>, mask: seq<bool>, bit: bool, k: nat)
    requires |mask| == |s| && k < |Select(s, mask, bit)|
    ensures exists i :: 0 <= i < |s| && mask[i] == bit && s[i] == Select(s, mask, bit)[k]
  {
    var n := |s| - 1;
    var front := Select(s[..n], mask[..n], bit);
    if k < |front| {
      SelectMembers(s[..n], mask[..n], bit, k);
      var i :| 0 <= i < n && mask[..n][i] == bit && s[..n][i] == front[k];
      assert mask[i] == bit && s[i] == front[k];
    } else {
      assert mask[n] == bit && s[n] == Select(s, mask, bit)[k];
    }
  }

  /** Every element whose mask bit is `bit` is selected. */
  lemma {:induction false} SelectContains<T>(s: seq<T>, mask: seq<bool>, bit: bool, i: nat)
    requires |mask| == |s| && i < |s| && mask[i] == bit
    ensures s[i] in Select(s, mask, bit)
  {
    var n := |s| - 1;
    if i < n {
      assert s[..n][i] == s[i];
      SelectContains(s[..n], mask[..n], bit, i);
    }
  }

  /** A mask that is `bit` throughout selects everything for `bit` and nothing for `!bit`. */
  lemma {:induction false} SelectUniform<T>(s: seq<T>, mask: seq<bool>, bit: bool)
    requires |mask| == |s| && forall i :: 0 <= i < |s| ==> mask[i] == bit
    ensures Select(s, mask, bit) == s && Select(s, mask, !bit) == []
  {
    if s != [] {
      var n := |s| - 1;
      SelectUniform(s[..n], mask[..n], bit);
      assert s == s[..n] + [s[n]];
    }
  }

  /** The two selections split the sequence: together they hold each element as often as `s` does. */
  lemma {:induction false} SelectPartition<T>(s: seq<T>, mask: seq<bool>)
    requires |mask| == |s|
    ensures multiset(Select(s, mask, true)) + multiset(Select(s, mask, false)) == multiset(s)
  {
    if s != [] {
      var n := |s| - 1;
      SelectPartition(s[..n], mask[..n]);
      assert s == s[..n] + [s[n]];
    }
  }

  /** `a` is `b` with some elements left out, the rest in the same order. */
  ghost predicate IsSubsequence<T>(a: seq<T>, b: seq<T>)
    decreases |b|
  {
    if a == [] then true
    else if b == [] then false
    else (a[|a| - 1] == b[|b| - 1] && IsSubsequence(a[..|a| - 1], b[..|b| - 1]))
         || IsSubsequence(a, b[..|b| - 1])
  }

  /** A selection keeps the relative order of what it selects. */
  lemma {:induction false} SelectIsSubsequence<T>(s: seq<T>, mask: seq<bool>, bit: bool)
    requires |mask| == |s|
    ensures IsSubsequence(Select(s, mask, bit), s)
  {
    if s != [] {
      var n := |s| - 1;
      var front := Select(s[..n], mask[..n], bit);
      SelectIsSubsequence(s[..n], mask[..n], bit);
      var r := Select(s, mask, bit);
      if mask[n] == bit {
        assert r[..|r| - 1] == front && r[|r| - 1] == s[n];
      } else {
        assert r == front;
      }
    }
  }

  /** No element occurs twice. */
  ghost predicate Distinct(s: seq<nat>)
  {
    forall x :: multiset(s)[x] <= 1
  }

  ghost predicate StrictlyIncreasing(s: seq<nat>)
  {
    forall i, j :: 0 <= i < j < |s| ==> s[i] < s[j]
  }

  /** A selection from a strictly increasing sequence is strictly increasing. */
  lemma {:induction false} SelectIncreasing(s: seq<nat>, mask: seq<bool>, bit: bool)
    requires |mask| == |s| && StrictlyIncreasing(s)
    ensures StrictlyIncreasing(Select(s, mask, bit))
  {
    if s != [] {
      var n := |s| - 1;
      var front := Select(s[..n], mask[..n], bit);
      SelectIncreasing(s[..n], mask[..n], bit);
      if mask[n] == bit {
        forall k | 0 <= k < |front| ensures front[k] < s[n] {
          SelectMembers(s[..n], mask[..n], bit, k);
        }
      }
    }
  }
}
