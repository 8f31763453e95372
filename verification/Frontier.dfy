/**
 The Pareto frontier of error states: how far a state is into the source against what the way to it cost.
 */
module Frontier {

  datatype ErrorInfo = ErrorInfo(state: nat, totalAdvancedTokens: nat, modificationCost: nat)

  datatype PruneCondition = PruneCondition(tokenLookAhead: nat, costTolerance: nat)

  const PRUNE_CONDITIONS := [PruneCondition(3, 0), PruneCondition(2, 2), PruneCondition(1, 3)]
  const STRICT_PRUNE_CONDITION := PruneCondition(1, 0)

  /** `y` is at least as far ahead as `x` at a strictly lower cost. */
  predicate Dominates(y: ErrorInfo, x: ErrorInfo) {
    y.totalAdvancedTokens >= x.totalAdvancedTokens && y.modificationCost < x.modificationCost
  }

  /** Whether `y` may stand behind `x`. */
  predicate Precedes(x: ErrorInfo, y: ErrorInfo) {
    && x.totalAdvancedTokens >= y.totalAdvancedTokens
    && x.modificationCost >= y.modificationCost
    && (x.totalAdvancedTokens == y.totalAdvancedTokens ==> x.modificationCost == y.modificationCost)
  }

  /** Farthest first, and never cheaper the farther. */
  predicate Ordered(best: seq<ErrorInfo>) {
    forall i, j :: 0 <= i < j < |best| ==> Precedes(best[i], best[j])
  }

  /** `best` holds only inserted entries, and whatever it lacks is dominated by one of its entries. */
  ghost predicate Covers(best: seq<ErrorInfo>, inserted: set<ErrorInfo>) {
    && (forall b :: b in best ==> b in inserted)
    && (forall x :: x in inserted ==> x in best || exists b :: b in best && Dominates(b, x))
  }

  ghost predicate IsFrontier(best: seq<ErrorInfo>, inserted: set<ErrorInfo>) {
    Ordered(best) && Covers(best, inserted)
  }

  /** The frontier is exactly the set of inserted entries that no inserted entry dominates. */
  lemma FrontierIsExact(best: seq<ErrorInfo>, inserted: set<ErrorInfo>)
    requires IsFrontier(best, inserted)
    ensures forall x :: x in best <==> x in inserted && forall y :: y in inserted ==> !Dominates(y, x)
  {
    NoneDominated(best);
    forall x, y | x in best && y in inserted
      ensures !Dominates(y, x)
    {
      if y !in best {
        var b :| b in best && Dominates(b, y);
        assert !Dominates(b, x);
      }
    }
  }

  lemma NoneDominated(best: seq<ErrorInfo>)
    requires Ordered(best)
    ensures forall b, x :: b in best && x in best ==> !Dominates(b, x)
  {
    forall i, j | 0 <= i < |best| && 0 <= j < |best|
      ensures !Dominates(best[i], best[j])
    {
      assert i < j || j < i || i == j;
    }
  }

  /** First index that is not farther ahead than `info`. */
  method LowerBound(best: seq<ErrorInfo>, info: ErrorInfo) returns (lb: nat)
    requires Ordered(best)
    ensures lb <= |best|
    ensures forall i :: 0 <= i < lb ==> best[i].totalAdvancedTokens > info.totalAdvancedTokens
    ensures forall i :: lb <= i < |best| ==> best[i].totalAdvancedTokens <= info.totalAdvancedTokens
  {
    lb := 0;
    var high := |best|;
    while lb < high
      invariant lb <= high <= |best|
      invariant forall i :: 0 <= i < lb ==> best[i].totalAdvancedTokens > info.totalAdvancedTokens
      invariant forall i :: high <= i < |best| ==> best[i].totalAdvancedTokens <= info.totalAdvancedTokens
    {
      var mid := (lb + high) / 2;
      if best[mid].totalAdvancedTokens > info.totalAdvancedTokens {
        lb := mid + 1;
      } else {
        high := mid;
      }
    }
  }

  /** Index of the first entry that is not at least `ahead` tokens into the source. */
  method PartitionPoint(best: seq<ErrorInfo>, ahead: nat) returns (p: nat)
    requires Ordered(best)
    ensures p <= |best|
    ensures forall i :: 0 <= i < p ==> best[i].totalAdvancedTokens >= ahead
    ensures forall i :: p <= i < |best| ==> best[i].totalAdvancedTokens < ahead
  {
    p := 0;
    var high := |best|;
    while p < high
      invariant p <= high <= |best|
      invariant forall i :: 0 <= i < p ==> best[i].totalAdvancedTokens >= ahead
      invariant forall i :: high <= i < |best| ==> best[i].totalAdvancedTokens < ahead
    {
      var mid := (p + high) / 2;
      if best[mid].totalAdvancedTokens >= ahead {
        p := mid + 1;
      } else {
        high := mid;
      }
    }
  }

  function NotCostlier(best: seq<ErrorInfo>, cost: nat): (kept: seq<ErrorInfo>)
    ensures forall x :: x in kept <==> x in best && x.modificationCost <= cost
    ensures Ordered(best) ==> Ordered(kept)
  {
    if best == [] then []
    else
      var rest := NotCostlier(best[1..], cost);
      if best[0].modificationCost <= cost then
        PrependOrdered(best[0], rest);
        [best[0]] + rest
      else rest
  }

  lemma PrependOrdered(x: ErrorInfo, rest: seq<ErrorInfo>)
    ensures Ordered(rest) && (forall y :: y in rest ==> Precedes(x, y)) ==> Ordered([x] + rest)
  {
  }

  /** The vector `best` after `info` was inserted, which keeps it the frontier of everything inserted. */
  method InsertBestError(best: seq<ErrorInfo>, info: ErrorInfo, ghost inserted: set<ErrorInfo>)
    returns (best': seq<ErrorInfo>)
    requires IsFrontier(best, inserted)
    ensures IsFrontier(best', inserted + {info})
  {
    hide Ordered, Covers, NotCostlier, Dominates;
    var lb := LowerBound(best, info);
    if lb == |best| {
      if best == [] {
        PushKeepsFrontier(best, info, inserted);
        assert best + [info] == [info];
        return [info];
      }
      if best[|best| - 1].modificationCost >= info.modificationCost {
        PushKeepsFrontier(best, info, inserted);
        best' := best + [info];
      } else {
        SkipKeepsFrontier(best, |best| - 1, info, inserted);
        best' := best;
      }
      return;
    }
    var same := best[lb].totalAdvancedTokens == info.totalAdvancedTokens;
    if lb != 0 || same {
      var test := if same then lb else lb - 1;
      if best[test].modificationCost < info.modificationCost {
        SkipKeepsFrontier(best, test, info, inserted);
        return best;
      }
    }
    best' := best[..lb] + [info] + NotCostlier(best[lb..], info.modificationCost);
    InsertKeepsOrder(best, lb, info);
    InsertKeepsCover(best, lb, info, inserted);
  }

  lemma PushKeepsFrontier(best: seq<ErrorInfo>, info: ErrorInfo, inserted: set<ErrorInfo>)
    requires IsFrontier(best, inserted)
    requires best != [] ==>
      var last := best[|best| - 1];
      last.totalAdvancedTokens > info.totalAdvancedTokens && last.modificationCost >= info.modificationCost
    ensures IsFrontier(best + [info], inserted + {info})
  {
    ReplaceKeepsCover(best, best + [info], info, inserted);
  }

  lemma SkipKeepsFrontier(best: seq<ErrorInfo>, i: nat, info: ErrorInfo, inserted: set<ErrorInfo>)
    requires IsFrontier(best, inserted) && i < |best|
    requires best[i].totalAdvancedTokens >= info.totalAdvancedTokens
    requires best[i].modificationCost < info.modificationCost
    ensures IsFrontier(best, inserted + {info})
  {
    assert Dominates(best[i], info);
  }

  /** `info` belongs at index `lb`, and the entries around it are not cheaper. */
  ghost predicate FitsAt(best: seq<ErrorInfo>, lb: nat, info: ErrorInfo) {
    && lb < |best|
    && (forall i :: 0 <= i < lb ==> best[i].totalAdvancedTokens > info.totalAdvancedTokens)
    && (forall i :: lb <= i < |best| ==> best[i].totalAdvancedTokens <= info.totalAdvancedTokens)
    && (if best[lb].totalAdvancedTokens == info.totalAdvancedTokens then
          best[lb].modificationCost >= info.modificationCost
        else
          lb > 0 ==> best[lb - 1].modificationCost >= info.modificationCost)
  }

  lemma InsertKeepsOrder(best: seq<ErrorInfo>, lb: nat, info: ErrorInfo)
    requires Ordered(best) && FitsAt(best, lb, info)
    ensures Ordered(best[..lb] + [info] + NotCostlier(best[lb..], info.modificationCost))
  {
    var head, tail := best[..lb], [info] + NotCostlier(best[lb..], info.modificationCost);
    assert best[..lb] + [info] + NotCostlier(best[lb..], info.modificationCost) == head + tail;
    TailOrdered(best, lb, info, tail[1..]);
    HeadOrdered(best, lb, info);
    hide Ordered, NotCostlier;
    ConcatOrdered(head, tail, info);
  }

  lemma HeadOrdered(best: seq<ErrorInfo>, lb: nat, info: ErrorInfo)
    requires Ordered(best) && FitsAt(best, lb, info)
    ensures Ordered(best[..lb])
    ensures forall x :: x in best[..lb] ==>
      x.totalAdvancedTokens > info.totalAdvancedTokens && x.modificationCost >= info.modificationCost
  {
    forall k | 0 <= k < lb
      ensures best[k].modificationCost >= info.modificationCost
    {
      var neighbour := if best[lb].totalAdvancedTokens == info.totalAdvancedTokens then lb else lb - 1;
      assert k <= neighbour;
    }
  }

  lemma TailOrdered(best: seq<ErrorInfo>, lb: nat, info: ErrorInfo, kept: seq<ErrorInfo>)
    requires Ordered(best) && FitsAt(best, lb, info) && kept == NotCostlier(best[lb..], info.modificationCost)
    ensures Ordered([info] + kept)
    ensures forall x :: x in kept ==>
      x.totalAdvancedTokens <= info.totalAdvancedTokens && x.modificationCost <= info.modificationCost
  {
    assert Ordered(best[lb..]);
    forall x | x in kept
      ensures Precedes(info, x)
    {
      var k :| lb <= k < |best| && best[k] == x;
      assert k > lb ==> Precedes(best[lb], best[k]);
    }
    PrependOrdered(info, kept);
  }

  lemma ConcatOrdered(a: seq<ErrorInfo>, b: seq<ErrorInfo>, info: ErrorInfo)
    requires Ordered(a) && Ordered(b)
    requires forall x :: x in a ==>
      x.totalAdvancedTokens > info.totalAdvancedTokens && x.modificationCost >= info.modificationCost
    requires forall x :: x in b ==>
      x.totalAdvancedTokens <= info.totalAdvancedTokens && x.modificationCost <= info.modificationCost
    ensures Ordered(a + b)
  {
    forall i, j | 0 <= i < |a| && 0 <= j < |b|
      ensures a[i] in a && b[j] in b
    {
    }
  }

  lemma InsertKeepsCover(best: seq<ErrorInfo>, lb: nat, info: ErrorInfo, inserted: set<ErrorInfo>)
    requires Covers(best, inserted) && FitsAt(best, lb, info)
    ensures Covers(best[..lb] + [info] + NotCostlier(best[lb..], info.modificationCost), inserted + {info})
  {
    var kept := NotCostlier(best[lb..], info.modificationCost);
    var best' := best[..lb] + [info] + kept;
    forall b | b in best
      ensures b in best' || Dominates(info, b)
    {
      var k :| 0 <= k < |best| && best[k] == b;
      if k < lb {
        assert best'[k] == b;
      } else {
        assert b == best[lb..][k - lb];
      }
    }
    assert info in best' by {
      assert best'[lb] == info;
    }
    ReplaceKeepsCover(best, best', info, inserted);
  }

  lemma ReplaceKeepsCover(best: seq<ErrorInfo>, best': seq<ErrorInfo>, info: ErrorInfo, inserted: set<ErrorInfo>)
    requires Covers(best, inserted) && info in best'
    requires forall b :: b in best' ==> b in best || b == info
    requires forall b :: b in best ==> b in best' || Dominates(info, b)
    ensures Covers(best', inserted + {info})
  {
    forall x | x in inserted
      ensures x in best' || exists b :: b in best' && Dominates(b, x)
    {
      var b := if x in best then x else var b :| b in best && Dominates(b, x); b;
      if b !in best' {
        assert Dominates(info, x);
      }
    }
  }

  /** Some inserted entry is so far ahead of the state that the state is not worth expanding. */
  ghost predicate Superseded(inserted: set<ErrorInfo>, index: nat, cost: nat, condition: PruneCondition) {
    exists y :: y in inserted && y.totalAdvancedTokens >= index + condition.tokenLookAhead
                && y.modificationCost + condition.costTolerance <= cost
  }

  /** Pruning by binary search in the frontier decides about everything ever inserted. */
  method IsPruned(best: seq<ErrorInfo>, conditions: seq<PruneCondition>, index: nat, cost: nat,
                  ghost inserted: set<ErrorInfo>) returns (pruned: bool)
    requires IsFrontier(best, inserted)
    ensures pruned <==> exists condition :: condition in conditions && Superseded(inserted, index, cost, condition)
  {
    for i := 0 to |conditions|
      invariant forall k :: 0 <= k < i ==> !Superseded(inserted, index, cost, conditions[k])
    {
      var condition := conditions[i];
      var p := PartitionPoint(best, index + condition.tokenLookAhead);
      CheapestAhead(best, inserted, index + condition.tokenLookAhead, p);
      if p > 0 && best[p - 1].modificationCost + condition.costTolerance <= cost {
        assert Superseded(inserted, index, cost, condition) by {
          assert best[p - 1] in inserted;
        }
        return true;
      }
    }
    return false;
  }

  /** The last entry that is far enough ahead costs no more than any inserted entry that is. */
  lemma CheapestAhead(best: seq<ErrorInfo>, inserted: set<ErrorInfo>, ahead: nat, p: nat)
    requires IsFrontier(best, inserted) && p <= |best|
    requires forall i :: 0 <= i < p ==> best[i].totalAdvancedTokens >= ahead
    requires forall i :: p <= i < |best| ==> best[i].totalAdvancedTokens < ahead
    ensures forall y :: y in inserted && y.totalAdvancedTokens >= ahead ==>
      p > 0 && best[p - 1].modificationCost <= y.modificationCost
  {
    forall y | y in inserted && y.totalAdvancedTokens >= ahead
      ensures p > 0 && best[p - 1].modificationCost <= y.modificationCost
    {
      var b := if y in best then y else var b :| b in best && Dominates(b, y); b;
      var k :| 0 <= k < |best| && best[k] == b;
      assert k < p;
    }
  }
}
