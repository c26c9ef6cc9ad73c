/**
 * Print queue (src/day_05.py): a rule (a, b) says page a must not come after page b; an update is in
 * order when no rule is broken, and part_1 adds up the middle pages of the updates in order.
 */
module Day05 {
  import opened Common

  type Rule = (int, int)

  /** The rule `rule` is broken at index `pos`: page b is there and page a comes later. */
  predicate BrokenAt(rule: Rule, pages: seq<int>, pos: int)
    requires 0 <= pos < |pages|
  {
    pages[pos] == rule.1 && rule.0 in pages[pos + 1..]
  }

  /** No rule is broken anywhere in the update. */
  predicate InOrder(rules: seq<Rule>, pages: seq<int>) {
    forall pos, k :: 0 <= pos < |pages| && 0 <= k < |rules| ==> !BrokenAt(rules[k], pages, pos)
  }

  /** in_order: pages outside, rules inside, returning False at the first broken rule. */
  method CheckOrder(rules: seq<Rule>, pages: seq<int>) returns (ok: bool)
    ensures ok <==> InOrder(rules, pages)
  {
    for pos := 0 to |pages|
      invariant forall p, k :: 0 <= p < pos && 0 <= k < |rules| ==> !BrokenAt(rules[k], pages, p)
    {
      for k := 0 to |rules|
        invariant forall p, j :: 0 <= p < pos && 0 <= j < |rules| ==> !BrokenAt(rules[j], pages, p)
        invariant forall j :: 0 <= j < k ==> !BrokenAt(rules[j], pages, pos)
      {
        if pages[pos] == rules[k].1 && rules[k].0 in pages[pos + 1..] {
          assert BrokenAt(rules[k], pages, pos);
          return false;
        }
      }
    }
    return true;
  }

  /** An update is out of order exactly when some rule (a, b) has b at an index and a after it. */
  lemma OutOfOrderIff(rules: seq<Rule>, pages: seq<int>)
    ensures !InOrder(rules, pages) <==>
      exists k, i, j :: 0 <= k < |rules| && 0 <= i < j < |pages| && pages[i] == rules[k].1 && pages[j] == rules[k].0
  {
    if !InOrder(rules, pages) {
      var pos, k :| 0 <= pos < |pages| && 0 <= k < |rules| && BrokenAt(rules[k], pages, pos);
      var t :| 0 <= t < |pages[pos + 1..]| && pages[pos + 1..][t] == rules[k].0;
      assert pages[pos + 1 + t] == rules[k].0;
    }
    if exists k, i, j :: 0 <= k < |rules| && 0 <= i < j < |pages| && pages[i] == rules[k].1 && pages[j] == rules[k].0 {
      var k, i, j :| 0 <= k < |rules| && 0 <= i < j < |pages| && pages[i] == rules[k].1 && pages[j] == rules[k].0;
      assert pages[i + 1..][j - i - 1] == rules[k].0;
      assert BrokenAt(rules[k], pages, i);
    }
  }

  /** Updates of no or one page are always in order. */
  lemma ShortUpdatesInOrder(rules: seq<Rule>, pages: seq<int>)
    requires |pages| <= 1
    ensures InOrder(rules, pages)
  {
    if |pages| == 1 {
      assert pages[1..] == [];
    }
  }

  /** A rule one of whose pages is absent from the update can never reject it. */
  lemma AbsentRulesIrrelevant(rules: seq<Rule>, extra: seq<Rule>, pages: seq<int>)
    requires forall k :: 0 <= k < |extra| ==> extra[k].0 !in pages || extra[k].1 !in pages
    ensures InOrder(rules + extra, pages) <==> InOrder(rules, pages)
  {
    var all := rules + extra;
    forall pos, k | 0 <= pos < |pages| && |rules| <= k < |all|
      ensures !BrokenAt(all[k], pages, pos)
    {
      var r := extra[k - |rules|];
      assert all[k] == r;
    }
    assert forall k :: 0 <= k < |rules| ==> all[k] == rules[k];
  }

  /** `pages[len(pages) // 2]`: the middle page, or an IndexError for an empty update. */
  function Middle(pages: seq<int>): Option<int> {
    if pages == [] then None else Some(pages[|pages| / 2])
  }

  /** part_1's total over the updates: the middle pages of those in order; None once one raises. */
  function MiddleSum(rules: seq<Rule>, updates: seq<seq<int>>): Option<int> {
    if updates == [] then Some(0)
    else
      var rest := MiddleSum(rules, updates[..|updates| - 1]);
      var pages := updates[|updates| - 1];
      if rest.None? || !InOrder(rules, pages) then rest
      else if Middle(pages).None? then None
      else Some(rest.value + Middle(pages).value)
  }

  /** part_1 on the parsed rules and updates. */
  method Part1(rules: seq<Rule>, updates: seq<seq<int>>) returns (total: Option<int>)
    ensures total == MiddleSum(rules, updates)
  {
    var sum := 0;
    for i := 0 to |updates|
      invariant MiddleSum(rules, updates[..i]) == Some(sum)
    {
      var pages := updates[i];
      assert updates[..i + 1][..i] == updates[..i];
      var ok := CheckOrder(rules, pages);
      if ok {
        if pages == [] {
          MiddleSumNonePersists(rules, updates, i + 1);
          return None;
        }
        sum := sum + pages[|pages| / 2];
      }
    }
    assert updates[..|updates|] == updates;
    return Some(sum);
  }

  lemma {:induction false} MiddleSumNonePersists(rules: seq<Rule>, updates: seq<seq<int>>, k: nat)
    requires k <= |updates| && MiddleSum(rules, updates[..k]).None?
    ensures MiddleSum(rules, updates).None?
    decreases |updates|
  {
    if k < |updates| {
      var init := updates[..|updates| - 1];
      assert init[..k] == updates[..k];
      MiddleSumNonePersists(rules, init, k);
    } else {
      assert updates[..k] == updates;
    }
  }

  /** Only updates in order contribute: with none in order the total is 0. */
  lemma {:induction false} NoneInOrderSumsZero(rules: seq<Rule>, updates: seq<seq<int>>)
    requires forall i :: 0 <= i < |updates| ==> !InOrder(rules, updates[i])
    ensures MiddleSum(rules, updates) == Some(0)
  {
    if updates != [] {
      var init := updates[..|updates| - 1];
      assert forall i :: 0 <= i < |init| ==> init[i] == updates[i];
      NoneInOrderSumsZero(rules, init);
    }
  }

  /** An update that breaks a rule adds nothing, wherever it stands in the list. */
  lemma {:induction false} OutOfOrderAddsNothing(rules: seq<Rule>, updates: seq<seq<int>>, pages: seq<int>)
    requires !InOrder(rules, pages)
    ensures MiddleSum(rules, updates + [pages]) == MiddleSum(rules, updates)
  {
    assert (updates + [pages])[..|updates|] == updates;
  }
}
