/**
 * Histogram rebinning by integer division: consecutive groups of source bins are summed, and nothing is
 * lost or counted twice.
 */
module Rebin {

  function Sum(s: seq<int>): int {
    if s == [] then 0 else Sum(s[..|s| - 1]) + s[|s| - 1]
  }

  lemma {:induction false} SumConcat(a: seq<int>, b: seq<int>)
    ensures Sum(a + b) == Sum(a) + Sum(b)
  {
    if b == [] {
      assert a + b == a;
    } else {
      assert (a + b)[..|a + b| - 1] == a + b[..|b| - 1];
      SumConcat(a, b[..|b| - 1]);
    }
  }

  /** Where group `index` starts when `source` bins are spread over `target` groups. */
  function Start(index: nat, source: nat, target: nat): (start: nat)
    requires target > 0
  {
    index * source / target
  }

  lemma Division(a: nat, t: nat)
    requires t > 0
    ensures a / t * t <= a < a / t * t + t
  {
  }

  lemma Times(x: int, y: int, t: nat)
    requires x <= y
    ensures x * t <= y * t
  {
  }

  lemma QuotientOrder(p: nat, q: nat, a: nat, b: nat, t: nat)
    requires p * t <= a <= b < q * t + t
    ensures p <= q
    ensures a + t <= b ==> p < q
  {
    if q < p {
      Times(q + 1, p, t);
    } else if q == p && a + t <= b {
      Times(q, p, t);
    }
  }

  lemma DivisionMonotone(a: nat, b: nat, t: nat)
    requires t > 0 && a <= b
    ensures a / t <= b / t
    ensures a + t <= b ==> a / t < b / t
  {
    Division(a, t);
    Division(b, t);
    QuotientOrder(a / t, b / t, a, b, t);
  }

  lemma ExactDivision(s: nat, t: nat)
    requires t > 0
    ensures t * s / t == s
  {
    var q := t * s / t;
    Division(t * s, t);
    if q < s {
      Times(q + 1, s, t);
    } else if q > s {
      Times(s + 1, q, t);
    }
  }

  /** With fewer groups than bins no group is empty, and the groups run from the first bin to the last. */
  lemma GroupsAreNonEmpty(index: nat, source: nat, target: nat)
    requires 0 < target < source && index < target
    ensures Start(index, source, target) < Start(index + 1, source, target) <= source
    ensures Start(0, source, target) == 0 && Start(target, source, target) == source
  {
    var here, next, all := index * source, (index + 1) * source, target * source;
    assert next == here + source;
    DivisionMonotone(here, next, target);
    Times(index + 1, target, source);
    ExactDivision(source, target);
    DivisionMonotone(next, all, target);
    ZeroStart(source, target);
  }

  lemma ZeroStart(source: nat, target: nat)
    requires target > 0
    ensures Start(0, source, target) == 0
  {
    assert 0 * source == 0;
  }

  lemma {:induction false} StartsIncrease(i: nat, j: nat, source: nat, target: nat)
    requires 0 < target < source && i <= j <= target
    ensures Start(i, source, target) <= Start(j, source, target)
  {
    if i < j {
      StartsIncrease(i, j - 1, source, target);
      GroupsAreNonEmpty(j - 1, source, target);
    }
  }

  /** Every source bin belongs to one group ... */
  lemma {:induction false} GroupOf(bin: nat, source: nat, target: nat, upTo: nat) returns (index: nat)
    requires 0 < target < source && 0 < upTo <= target && bin < Start(upTo, source, target)
    ensures index < upTo && Start(index, source, target) <= bin < Start(index + 1, source, target)
  {
    index := upTo - 1;
    if bin < Start(index, source, target) {
      GroupsAreNonEmpty(0, source, target);
      index := GroupOf(bin, source, target, upTo - 1);
    }
  }

  /** ... and to no other. */
  lemma GroupsAreDisjoint(bin: nat, i: nat, j: nat, source: nat, target: nat)
    requires 0 < target < source && i < target && j < target
    requires Start(i, source, target) <= bin < Start(i + 1, source, target)
    requires Start(j, source, target) <= bin < Start(j + 1, source, target)
    ensures i == j
  {
    if i < j {
      StartsIncrease(i + 1, j, source, target);
    } else if j < i {
      StartsIncrease(j + 1, i, source, target);
    }
  }

  /** At every group boundary reached so far, the groups hold the same total as the bins before it. */
  ghost predicate PrefixesAgree(rebinned: seq<int>, sourceBins: seq<int>, target: nat)
    requires target > 0
  {
    forall k :: 0 <= k <= |rebinned| ==>
      var start := Start(k, |sourceBins|, target);
      start <= |sourceBins| && Sum(rebinned[..k]) == Sum(sourceBins[..start])
  }

  lemma GroupEnds(rebinned: seq<int>, sourceBins: seq<int>, start: nat, end: nat)
    requires start <= end <= |sourceBins| && Sum(rebinned) == Sum(sourceBins[..start])
    ensures Sum(rebinned + [Sum(sourceBins[start..end])]) == Sum(sourceBins[..end])
  {
    var sum := Sum(sourceBins[start..end]);
    assert (rebinned + [sum])[..|rebinned|] == rebinned;
    assert sourceBins[..end] == sourceBins[..start] + sourceBins[start..end];
    SumConcat(sourceBins[..start], sourceBins[start..end]);
  }

  lemma NextGroup(rebinned: seq<int>, sourceBins: seq<int>, target: nat)
    requires 0 < target < |sourceBins| && |rebinned| < target && PrefixesAgree(rebinned, sourceBins, target)
    ensures var start := Start(|rebinned|, |sourceBins|, target);
            var end := Start(|rebinned| + 1, |sourceBins|, target);
            && start < end <= |sourceBins|
            && PrefixesAgree(rebinned + [Sum(sourceBins[start..end])], sourceBins, target)
  {
    hide Sum, Start;
    var n := |rebinned|;
    GroupsAreNonEmpty(n, |sourceBins|, target);
    var start, end := Start(n, |sourceBins|, target), Start(n + 1, |sourceBins|, target);
    var longer := rebinned + [Sum(sourceBins[start..end])];
    assert rebinned[..n] == rebinned && longer[..n + 1] == longer;
    GroupEnds(rebinned, sourceBins, start, end);
    forall k | 0 <= k <= |longer|
      ensures Start(k, |sourceBins|, target) <= |sourceBins|
      ensures Sum(longer[..k]) == Sum(sourceBins[..Start(k, |sourceBins|, target)])
    {
      if k <= n {
        assert longer[..k] == rebinned[..k];
      }
    }
  }

  /** The total is kept, and so is every total up to a group boundary. The empty-group fallback is never taken. */
  method Rebin(sourceBins: seq<int>, targetCount: nat) returns (rebinned: seq<int>)
    ensures targetCount >= |sourceBins| ==> rebinned == sourceBins
    ensures targetCount < |sourceBins| ==> |rebinned| == targetCount
    ensures 0 < targetCount < |sourceBins| ==> PrefixesAgree(rebinned, sourceBins, targetCount)
    ensures 0 < targetCount ==> Sum(rebinned) == Sum(sourceBins)
  {
    var sourceCount := |sourceBins|;
    if targetCount >= sourceCount {
      return sourceBins;
    }
    rebinned := [];
    if targetCount > 0 {
      ZeroStart(sourceCount, targetCount);
    }
    var index := 0;
    while index < targetCount
      invariant 0 <= index <= targetCount && |rebinned| == index
      invariant 0 < targetCount ==> PrefixesAgree(rebinned, sourceBins, targetCount)
    {
      NextGroup(rebinned, sourceBins, targetCount);
      var start := (index * sourceCount) / targetCount;
      var end := ((index + 1) * sourceCount) / targetCount;
      if end <= start {
        assert false;
        end := if sourceCount < start + 1 then sourceCount else start + 1;
      }
      rebinned := rebinned + [Sum(sourceBins[start..end])];
      index := index + 1;
    }
    if 0 < targetCount {
      GroupsAreNonEmpty(0, sourceCount, targetCount);
      assert rebinned[..targetCount] == rebinned && sourceBins[..sourceCount] == sourceBins;
    }
  }
}
