/**
 * What evaluating a parsed path yields, as functions of the item tree: the
 * items a block's key selects, the filters applied to them in order, and the
 * walk from the root items down the blocks, each step continuing from the
 * first item the previous block kept.
 */
module PathEvaluation {

  import opened Optional
  import opened PathSyntax
  import opened ItemTree

  /** The items below any of `items` whose objectName is `key`, one search per item in turn. */
  function FoundBelow(items: seq<Node>, key: string): seq<Node>
  {
    if |items| == 0 then []
    else FoundBelow(items[..|items| - 1], key) + WithName(Descendants(items[|items| - 1]), key)
  }

  /**
   * The items a block's key selects among `items`: all of them when the key is
   * empty (the descendant marker is then ignored), otherwise those named `key`,
   * followed, for a `//` block, by the named items below each of them.
   */
  function MatchKey(items: seq<Node>, b: Block): seq<Node>
  {
    if b.key == "" then items
    else WithName(items, b.key) + (if b.nested then FoundBelow(items, b.key) else [])
  }

  /** filterByIndex: the item at the index, if there is one. */
  function FilterByIndex(items: seq<Node>, index: nat): (r: seq<Node>)
    ensures |r| <= 1
    ensures |r| == 1 <==> index < |items|
    ensures |r| == 1 ==> r[0] == items[index]
  {
    if index < |items| then [items[index]] else []
  }

  /** An item passes a property filter when it has the property and, if a value is given, its text equals it. */
  predicate HasProperty(n: Node, f: Filter)
    requires f.Property?
  {
    f.name in n.props && (!f.hasValue || n.props[f.name] == f.value)
  }

  /** The items that pass a property filter, in their order. */
  function WithProperty(items: seq<Node>, f: Filter): (r: seq<Node>)
    requires f.Property?
    ensures forall m :: m in r ==> m in items && HasProperty(m, f)
  {
    if |items| == 0 then []
    else
      var last := items[|items| - 1];
      WithProperty(items[..|items| - 1], f) + (if HasProperty(last, f) then [last] else [])
  }

  function ApplyFilter(items: seq<Node>, f: Filter): seq<Node>
  {
    match f
    case Index(n) => FilterByIndex(items, n)
    case Property(_, _, _) => WithProperty(items, f)
  }

  /** The filters of a block, applied one after the other in the order written. */
  function ApplyFilters(items: seq<Node>, fs: seq<Filter>): (r: seq<Node>)
    ensures |r| <= |items|
  {
    if |fs| == 0 then items
    else
      var before := ApplyFilters(items, fs[..|fs| - 1]);
      ApplyFilterLength(before, fs[|fs| - 1]);
      ApplyFilter(before, fs[|fs| - 1])
  }

  /** The items one block keeps among the candidates. */
  function SelectBlock(items: seq<Node>, b: Block): seq<Node>
  {
    ApplyFilters(MatchKey(items, b), b.filters)
  }

  /**
   * evaluateItems: with no block left the answer is the current item; with no
   * candidates there is none; otherwise the first item the block keeps becomes
   * current and its collected child items are the next candidates.
   */
  function EvaluateBlocks(current: Option<Node>, items: seq<Node>, bs: seq<Block>): Option<Node>
    decreases |bs|
  {
    if |bs| == 0 then current
    else if |items| == 0 then None
    else
      var results := SelectBlock(items, bs[0]);
      if |results| == 0 then None
      else EvaluateBlocks(Some(results[0]), CollectChildItems(results[0]), bs[1..])
  }

  /** evaluate: no path, no item; otherwise the walk starts from the root items with no current item. */
  function EvaluatePath(roots: seq<Node>, bs: seq<Block>): (r: Option<Node>)
    ensures r.Some? ==> |bs| > 0 && |roots| > 0
    ensures r.Some? && bs[|bs| - 1].key != "" ==> r.value.name == bs[|bs| - 1].key
  {
    if |bs| == 0 then None
    else
      var r := EvaluateBlocks(None, roots, bs);
      if r.Some? then EvaluateBlocksLast(None, roots, bs, r.value); r else r
  }

  // ---------------------------------------------------------------------
  // Properties

  lemma {:induction false} FoundBelowMember(items: seq<Node>, key: string, m: Node)
    ensures m in FoundBelow(items, key) <==>
      m.name == key && exists it :: it in items && m in Descendants(it)
    decreases |items|
  {
    if |items| > 0 {
      var init, last := items[..|items| - 1], items[|items| - 1];
      FoundBelowMember(init, key, m);
      WithNameMember(Descendants(last), key, m);
      assert items == init + [last];
      if m in FoundBelow(items, key) && m !in FoundBelow(init, key) {
        assert last in items && m in Descendants(last);
      }
      if m.name == key && exists it :: it in items && m in Descendants(it) {
        var it :| it in items && m in Descendants(it);
        if it != last {
          assert it in init;
        }
      }
    }
  }

  /**
   * With a key, a block selects exactly the items named after it that are
   * candidates themselves or, for `//`, lie below a candidate.
   */
  lemma MatchKeyMember(items: seq<Node>, b: Block, m: Node)
    requires b.key != ""
    ensures m in MatchKey(items, b) <==>
      m.name == b.key && (m in items || (b.nested && exists it :: it in items && m in Descendants(it)))
  {
    WithNameMember(items, b.key, m);
    FoundBelowMember(items, b.key, m);
  }

  lemma {:induction false} WithPropertyMember(items: seq<Node>, f: Filter, m: Node)
    requires f.Property?
    ensures m in WithProperty(items, f) <==> m in items && HasProperty(m, f)
    decreases |items|
  {
    if |items| > 0 {
      WithPropertyMember(items[..|items| - 1], f, m);
      assert items == items[..|items| - 1] + [items[|items| - 1]];
    }
  }

  /** A property filter keeps the order: filtering a concatenation filters each part. */
  lemma {:induction false} WithPropertyAppend(a: seq<Node>, b: seq<Node>, f: Filter)
    requires f.Property?
    ensures WithProperty(a + b, f) == WithProperty(a, f) + WithProperty(b, f)
    decreases |b|
  {
    if |b| == 0 {
      assert a + b == a;
    } else {
      assert (a + b)[..|a + b| - 1] == a + b[..|b| - 1];
      WithPropertyAppend(a, b[..|b| - 1], f);
    }
  }

  /** Applying the same property filter twice keeps the same items as applying it once. */
  lemma {:induction false} WithPropertyIdempotent(items: seq<Node>, f: Filter)
    requires f.Property?
    ensures WithProperty(WithProperty(items, f), f) == WithProperty(items, f)
    decreases |items|
  {
    if |items| > 0 {
      var init, last := items[..|items| - 1], items[|items| - 1];
      WithPropertyIdempotent(init, f);
      var kept := if HasProperty(last, f) then [last] else [];
      WithPropertyAppend(WithProperty(init, f), kept, f);
      if HasProperty(last, f) {
        assert WithProperty(kept, f) == WithProperty([], f) + [last];
      }
    }
  }

  /**
   * Whatever the filters of a block keep was a candidate, passes every
   * property filter, and is at most one item once an index filter appears.
   */
  lemma {:induction false} ApplyFiltersKeeps(items: seq<Node>, fs: seq<Filter>, m: Node)
    requires m in ApplyFilters(items, fs)
    ensures m in items
    ensures forall k :: 0 <= k < |fs| && fs[k].Property? ==> HasProperty(m, fs[k])
    decreases |fs|
  {
    if |fs| > 0 {
      var init, f := fs[..|fs| - 1], fs[|fs| - 1];
      var before := ApplyFilters(items, init);
      if f.Property? {
        WithPropertyMember(before, f, m);
      }
      assert m in before;
      ApplyFiltersKeeps(items, init, m);
      assert forall k :: 0 <= k < |fs| - 1 ==> fs[k] == init[k];
    }
  }

  lemma {:induction false} ApplyFiltersAfterIndex(items: seq<Node>, fs: seq<Filter>, k: nat)
    requires k < |fs| && fs[k].Index?
    ensures |ApplyFilters(items, fs)| <= 1
    decreases |fs|
  {
    var init := fs[..|fs| - 1];
    if k < |fs| - 1 {
      assert init[k] == fs[k];
      ApplyFiltersAfterIndex(items, init, k);
      ApplyFilterLength(ApplyFilters(items, init), fs[|fs| - 1]);
    }
  }

  lemma {:induction false} ApplyFilterLength(items: seq<Node>, f: Filter)
    ensures |ApplyFilter(items, f)| <= |items|
    decreases |items|
  {
    if f.Property? && |items| > 0 {
      ApplyFilterLength(items[..|items| - 1], f);
    }
  }

  /**
   * Following a path in two parts is following the first part and then the
   * second part from the item it reached.
   */
  lemma {:induction false} EvaluateBlocksAppend(current: Option<Node>, items: seq<Node>, bs1: seq<Block>, bs2: seq<Block>)
    requires |bs1| > 0
    ensures EvaluateBlocks(current, items, bs1 + bs2) ==
      match EvaluateBlocks(current, items, bs1)
      case None => None
      case Some(m) => EvaluateBlocks(Some(m), CollectChildItems(m), bs2)
    decreases |bs1|
  {
    var bs := bs1 + bs2;
    if |items| > 0 {
      assert bs[0] == bs1[0];
      var results := SelectBlock(items, bs1[0]);
      if |results| > 0 {
        var m := results[0];
        if |bs1| == 1 {
          assert bs[1..] == bs2;
          assert EvaluateBlocks(current, items, bs1) == EvaluateBlocks(Some(m), CollectChildItems(m), []);
        } else {
          assert bs[1..] == bs1[1..] + bs2;
          assert EvaluateBlocks(current, items, bs1) == EvaluateBlocks(Some(m), CollectChildItems(m), bs1[1..]);
          EvaluateBlocksAppend(Some(m), CollectChildItems(m), bs1[1..], bs2);
        }
      }
    }
  }

  /** A trailing `/` selects the first collected child item of what the path reached. */
  lemma EvaluateTerminal(current: Option<Node>, items: seq<Node>)
    ensures EvaluateBlocks(current, items, [Terminal]) == if |items| == 0 then None else Some(items[0])
  {
  }

  /**
   * When the last block has a key, the item reached carries that objectName
   * and passes every property filter of that block.
   */
  lemma {:induction false} EvaluateBlocksLast(current: Option<Node>, items: seq<Node>, bs: seq<Block>, m: Node)
    requires |bs| > 0
    requires EvaluateBlocks(current, items, bs) == Some(m)
    ensures var b := bs[|bs| - 1];
      && (b.key != "" ==> m.name == b.key)
      && (forall k :: 0 <= k < |b.filters| && b.filters[k].Property? ==> HasProperty(m, b.filters[k]))
    decreases |bs|
  {
    var results := SelectBlock(items, bs[0]);
    assert EvaluateBlocks(current, items, bs) == EvaluateBlocks(Some(results[0]), CollectChildItems(results[0]), bs[1..]);
    if |bs| == 1 {
      assert results[0] in results;
      ApplyFiltersKeeps(MatchKey(items, bs[0]), bs[0].filters, results[0]);
      if bs[0].key != "" {
        MatchKeyMember(items, bs[0], results[0]);
      }
    } else {
      assert bs[1..][|bs| - 2] == bs[|bs| - 1];
      EvaluateBlocksLast(Some(results[0]), CollectChildItems(results[0]), bs[1..], m);
    }
  }

  /** Applying the filters of a block in two runs, split anywhere, is applying them all. */
  lemma {:induction false} ApplyFiltersSplit(items: seq<Node>, fs: seq<Filter>, k: nat)
    requires k <= |fs|
    ensures ApplyFilters(items, fs) == ApplyFilters(ApplyFilters(items, fs[..k]), fs[k..])
    decreases |fs|
  {
    if |fs| == k {
      assert fs[..k] == fs && fs[k..] == [];
    } else {
      var init := fs[..|fs| - 1];
      ApplyFiltersSplit(items, init, k);
      assert init[..k] == fs[..k];
      assert fs[k..][..|fs| - k - 1] == init[k..];
    }
  }

  /**
   * An index filter that points past the items the filters before it left
   * makes the whole path evaluate to nothing, whatever follows it.
   */
  lemma IndexOutOfRange(current: Option<Node>, items: seq<Node>, b: Block, rest: seq<Block>, k: nat)
    requires k < |b.filters| && b.filters[k].Index?
    requires b.filters[k].index >= |ApplyFilters(MatchKey(items, b), b.filters[..k])|
    ensures EvaluateBlocks(current, items, [b] + rest) == None
  {
    var fs := b.filters;
    var candidates := MatchKey(items, b);
    ApplyFiltersSplit(candidates, fs, k + 1);
    assert fs[..k + 1][..k] == fs[..k];
    assert ApplyFilters(candidates, fs[..k + 1]) == [];
    assert ([b] + rest)[0] == b;
  }
}
