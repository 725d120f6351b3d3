/**
 * Rows of the evaluation test table (tests/testqmlpath.cpp, evaluate_data),
 * replayed on a small item tree of the same shape: a root `abc` with a child
 * `def` holding `ghi`, and a `list` whose content item holds `artichoke`.
 * The search rows are proved for every tree of that shape (predicate Shaped),
 * which the concrete tree has (AbcShaped).
 */
module EvaluateExamples {

  import opened Optional
  import opened PathSyntax
  import opened ItemTree
  import opened PathEvaluation

  function Ghi(): Node { Node("ghi", map[], [], None) }
  function Def(): Node { Node("def", map[], [Ghi()], None) }
  function Artichoke(): Node { Node("artichoke", map[], [], None) }
  function List(): Node { Node("list", map[], [], Some(Node("", map[], [Artichoke()], None))) }
  function Abc(): Node { Node("abc", map["pBool" := "true"], [Def(), List()], None) }

  /** One block with a key and no filters, whose first named candidate is `m`: the walk continues below `m`. */
  lemma StepByName(current: Option<Node>, items: seq<Node>, key: string, rest: seq<Block>, m: Node)
    requires key != "" && |items| > 0
    requires |WithName(items, key)| > 0 && WithName(items, key)[0] == m
    ensures EvaluateBlocks(current, items, [Block(key, false, [])] + rest) == EvaluateBlocks(Some(m), CollectChildItems(m), rest)
  {
    var bs := [Block(key, false, [])] + rest;
    assert bs[0] == Block(key, false, []) && bs[1..] == rest;
  }

  lemma RootSelected()
    ensures EvaluatePath([Abc()], [Terminal]) == Some(Abc())
  {
    EvaluateTerminal(None, [Abc()]);
  }

  lemma FirstChildSelected()
    ensures EvaluatePath([Abc()], [Block("abc", false, []), Terminal]) == Some(Def())
  {
    assert WithName([Abc()], "abc") == [Abc()];
    EvaluateBlocksAppend(None, [Abc()], [Block("abc", false, [])], [Terminal]);
    EvaluateTerminal(Some(Abc()), [Def(), List()]);
  }

  lemma NestedNestedSelected()
    ensures EvaluatePath([Abc()], [Block("abc", false, []), Block("def", false, []), Block("ghi", false, [])]) == Some(Ghi())
  {
    var a, d, g := Block("abc", false, []), Block("def", false, []), Block("ghi", false, []);
    assert [a, d, g] == [a] + [d, g] && [d, g] == [d] + [g] && [g] == [g] + [];
    assert WithName([Abc()], "abc") == [Abc()];
    StepByName(None, [Abc()], "abc", [d, g], Abc());
    assert WithName([Def(), List()], "def") == [Def()];
    StepByName(Some(Abc()), [Def(), List()], "def", [g], Def());
    assert WithName([Ghi()], "ghi") == [Ghi()];
    StepByName(Some(Def()), [Ghi()], "ghi", [], Ghi());
  }

  lemma InvalidNestedRejected()
    ensures EvaluatePath([Abc()], [Block("abc", false, []), Block("invalid", false, [])]) == None
  {
    var a, x := Block("abc", false, []), Block("invalid", false, []);
    assert [a, x] == [a] + [x];
    assert WithName([Abc()], "abc") == [Abc()];
    StepByName(None, [Abc()], "abc", [x], Abc());
    assert WithName([Def(), List()], "invalid") == [];
  }

  /** `/abc/list/artichoke`: the items of a list are reached through its content item. */
  lemma ContentItemSelected()
    ensures EvaluatePath([Abc()], [Block("abc", false, []), Block("list", false, []), Block("artichoke", false, [])])
      == Some(Artichoke())
  {
    var a, l, x := Block("abc", false, []), Block("list", false, []), Block("artichoke", false, []);
    assert [a, l, x] == [a] + [l, x] && [l, x] == [l] + [x] && [x] == [x] + [];
    assert WithName([Abc()], "abc") == [Abc()];
    StepByName(None, [Abc()], "abc", [l, x], Abc());
    assert WithName([Def(), List()], "list") == [List()];
    StepByName(Some(Abc()), [Def(), List()], "list", [x], List());
    assert CollectChildItems(List()) == [Artichoke()];
    assert WithName([Artichoke()], "artichoke") == [Artichoke()];
    StepByName(Some(List()), [Artichoke()], "artichoke", [], Artichoke());
  }

  lemma RootOutOfRange()
    ensures EvaluatePath([Abc()], [Block("", false, [Index(1)])]) == None
  {
    var b := Block("", false, [Index(1)]);
    assert b.filters[..0] == [];
    IndexOutOfRange(None, [Abc()], b, [], 0);
    assert [b] + [] == [b];
  }

  /** One item, selected by its own name, and one property filter: the item stays exactly when it passes. */
  lemma PropertyOnOne(n: Node, f: Filter)
    requires f.Property? && n.name != ""
    ensures SelectBlock([n], Block(n.name, false, [f])) == if HasProperty(n, f) then [n] else []
  {
    var b := Block(n.name, false, [f]);
    WithNameOne(n, n.name);
    assert MatchKey([n], b) == [n];
    assert [f][..0] == [] && [n][..0] == [];
    assert ApplyFilters([n], [f]) == ApplyFilter(ApplyFilters([n], []), f);
    assert WithProperty([n], f) == WithProperty([], f) + (if HasProperty(n, f) then [n] else []);
  }

  lemma PropertyValueMatches()
    ensures EvaluatePath([Abc()], [Block("abc", false, [Property("pBool", true, "true")])]) == Some(Abc())
  {
    var f := Property("pBool", true, "true");
    PropertyOnOne(Abc(), f);
    EvaluateOneBlock([Abc()], Block("abc", false, [f]));
    assert HasProperty(Abc(), f);
  }

  lemma PropertyValueDiffers()
    ensures EvaluatePath([Abc()], [Block("abc", false, [Property("pBool", true, "false")])]) == None
  {
    var f := Property("pBool", true, "false");
    PropertyOnOne(Abc(), f);
    EvaluateOneBlock([Abc()], Block("abc", false, [f]));
    assert !HasProperty(Abc(), f);
  }

  lemma DescendantsOfLeaf(n: Node)
    requires n.children == [] && n.content == None
    ensures Descendants(n) == []
  {
  }

  /**
   * The shape of the test tree, with the items as parameters: a root `abc`
   * with children `def` (holding `ghi`) and `list`, whose content item holds
   * `artichoke`. Properties are left open.
   */
  predicate Shaped(abc: Node, def: Node, ghi: Node, list: Node, art: Node)
  {
    && abc.name == "abc" && abc.children == [def, list] && abc.content == None
    && def.name == "def" && def.children == [ghi] && def.content == None
    && ghi.name == "ghi" && ghi.children == [] && ghi.content == None
    && list.name == "list" && list.children == [] && list.content.Some?
    && list.content.value.children == [art] && list.content.value.content == None
    && art.name == "artichoke" && art.children == [] && art.content == None
  }

  lemma AbcShaped()
    ensures Shaped(Abc(), Def(), Ghi(), List(), Artichoke())
  {
  }

  /** The pre-order walk below the root: `def`, `ghi`, `list`, then `artichoke` through the content item. */
  lemma DescendantsOfShape(abc: Node, def: Node, ghi: Node, list: Node, art: Node)
    requires Shaped(abc, def, ghi, list, art)
    ensures Descendants(abc) == [def, ghi, list, art]
  {
    DescendantsOfLeaf(ghi);
    DescendantsOfLeaf(art);
    assert [ghi][..0] == [] && [art][..0] == [] && [def][..0] == [];
    var c := list.content.value;
    assert CollectChildItems(c) == [art];
    assert CollectChildItems(list) == [] + CollectChildItems(c);
    assert DescendantsIn([art]) == DescendantsIn([]) + [art] + Descendants(art);
    assert Descendants(list) == [art];
    assert DescendantsIn([ghi]) == DescendantsIn([]) + [ghi] + Descendants(ghi);
    assert Descendants(def) == [ghi];
    var cs := [def, list];
    assert CollectChildItems(abc) == cs;
    assert cs[..1] == [def];
    assert DescendantsIn([def]) == DescendantsIn([]) + [def] + Descendants(def);
    assert DescendantsIn(cs) == DescendantsIn([def]) + [list] + Descendants(list);
  }

  lemma WithNameOne(n: Node, key: string)
    ensures WithName([n], key) == if n.name == key then [n] else []
  {
    assert [n][..0] == [];
  }

  /** A `//key` search on one root item not named `key`, below which only `m` carries that name, keeps `m` alone. */
  lemma SearchFromRoot(root: Node, key: string, m: Node)
    requires key != "" && root.name != key
    requires WithName(Descendants(root), key) == [m]
    ensures SelectBlock([root], Block(key, true, [])) == [m]
  {
    assert [root][..0] == [];
    assert WithName([root], key) == [];
    assert FoundBelow([root], key) == [] + WithName(Descendants(root), key);
  }

  /** The names below the root are all different, so each of them names exactly one item below the root. */
  lemma NamedBelowShape(abc: Node, def: Node, ghi: Node, list: Node, art: Node, m: Node)
    requires Shaped(abc, def, ghi, list, art)
    requires m == def || m == ghi || m == art
    ensures WithName(Descendants(abc), m.name) == [m]
  {
    var key := m.name;
    DescendantsOfShape(abc, def, ghi, list, art);
    var a, b, c, d := [def], [ghi], [list], [art];
    assert Descendants(abc) == a + b + c + d;
    WithNameAppend(a + b + c, d, key);
    WithNameAppend(a + b, c, key);
    WithNameAppend(a, b, key);
    WithNameOne(def, key);
    WithNameOne(ghi, key);
    WithNameOne(list, key);
    WithNameOne(art, key);
  }

  /** A search for one of the names below the root keeps exactly its item. */
  lemma SearchBelowShape(abc: Node, def: Node, ghi: Node, list: Node, art: Node, m: Node)
    requires Shaped(abc, def, ghi, list, art)
    requires m == def || m == ghi || m == art
    ensures SelectBlock([abc], Block(m.name, true, [])) == [m]
  {
    NamedBelowShape(abc, def, ghi, list, art, m);
    SearchFromRoot(abc, m.name, m);
  }

  /**
   * A `//` block does not remove duplicates: an item that is a candidate and
   * also lies below another candidate is selected twice, once by its name and
   * once by the search below the other candidate.
   */
  lemma SearchKeepsDuplicates(holder: Node, m: Node, key: string)
    requires key != "" && m.name == key && holder.name != key
    requires holder.children == [m] && holder.content == None
    requires m.children == [] && m.content == None
    ensures MatchKey([holder, m], Block(key, true, [])) == [m, m]
  {
    var items := [holder, m];
    assert items[..1] == [holder] && [holder][..0] == [];
    assert WithName(items, key) == WithName([holder], key) + [m];
    FoundBelowHolder(holder, m, key);
  }

  /** The search below `[holder, m]` finds `m` below `holder` and nothing below the leaf `m`. */
  lemma FoundBelowHolder(holder: Node, m: Node, key: string)
    requires m.name == key
    requires holder.children == [m] && holder.content == None
    requires m.children == [] && m.content == None
    ensures FoundBelow([holder, m], key) == [m]
  {
    DescendantsOfLeaf(m);
    assert [m][..0] == [] && [holder][..0] == [];
    assert DescendantsIn([m]) == DescendantsIn([]) + [m] + Descendants(m);
    assert Descendants(holder) == [m];
    WithNameOne(m, key);
    var items := [holder, m];
    assert items[..1] == [holder];
    assert FoundBelow([holder], key) == FoundBelow([], key) + WithName(Descendants(holder), key);
    assert FoundBelow(items, key) == FoundBelow([holder], key) + WithName(Descendants(m), key);
  }

  /** A block that keeps exactly `m`: the walk continues below `m`. */
  lemma StepTo(current: Option<Node>, items: seq<Node>, b: Block, rest: seq<Block>, m: Node)
    requires |items| > 0 && SelectBlock(items, b) == [m]
    ensures EvaluateBlocks(current, items, [b] + rest) == EvaluateBlocks(Some(m), CollectChildItems(m), rest)
  {
    var bs := [b] + rest;
    assert bs[0] == b && bs[1..] == rest;
  }

  /** `//artichoke`: the search reaches the items of a list through its content item. */
  lemma SearchThroughContent(abc: Node, def: Node, ghi: Node, list: Node, art: Node)
    requires Shaped(abc, def, ghi, list, art)
    ensures EvaluatePath([abc], [Block("artichoke", true, [])]) == Some(art)
  {
    SearchBelowShape(abc, def, ghi, list, art, art);
    StepTo(None, [abc], Block("artichoke", true, []), [], art);
    assert [Block("artichoke", true, [])] + [] == [Block("artichoke", true, [])];
  }

  /** `//def/` takes the first child of the item found. */
  lemma SearchThenFirstChild(abc: Node, def: Node, ghi: Node, list: Node, art: Node)
    requires Shaped(abc, def, ghi, list, art)
    ensures EvaluatePath([abc], [Block("def", true, []), Terminal]) == Some(ghi)
  {
    SearchBelowShape(abc, def, ghi, list, art, def);
    StepTo(None, [abc], Block("def", true, []), [Terminal], def);
    EvaluateTerminal(Some(def), [ghi]);
  }

  /** `//ghi/`: the item found has no children, so the trailing `/` finds nothing. */
  lemma SearchThenNoChild(abc: Node, def: Node, ghi: Node, list: Node, art: Node)
    requires Shaped(abc, def, ghi, list, art)
    ensures EvaluatePath([abc], [Block("ghi", true, []), Terminal]) == None
  {
    SearchBelowShape(abc, def, ghi, list, art, ghi);
    StepTo(None, [abc], Block("ghi", true, []), [Terminal], ghi);
    EvaluateTerminal(Some(ghi), []);
  }

  lemma EvaluateOneBlock(items: seq<Node>, b: Block)
    requires |items| > 0
    ensures EvaluatePath(items, [b]) == if |SelectBlock(items, b)| == 0 then None else Some(SelectBlock(items, b)[0])
  {
    var results := SelectBlock(items, b);
    if |results| > 0 {
      assert [b][1..] == [];
      assert EvaluateBlocks(Some(results[0]), CollectChildItems(results[0]), []) == Some(results[0]);
    }
  }

  lemma TwoFilters(items: seq<Node>, f1: Filter, f2: Filter)
    ensures ApplyFilters(items, [f1, f2]) == ApplyFilter(ApplyFilter(items, f1), f2)
  {
    var fs := [f1, f2];
    assert fs[..1] == [f1] && fs[..1][..0] == [];
    assert ApplyFilters(items, fs[..1]) == ApplyFilter(ApplyFilters(items, []), f1);
    assert ApplyFilters(items, fs) == ApplyFilter(ApplyFilters(items, fs[..1]), f2);
  }

  /**
   * Two items of the same name, of which only the second passes the property
   * filter `f` (the `filterA` rows: `p1` is `A` on the first and `B` on the second).
   */
  predicate SecondPasses(a: Node, b: Node, key: string, f: Filter)
  {
    key != "" && a.name == key && b.name == key && f.Property? && !HasProperty(a, f) && HasProperty(b, f)
  }

  lemma SecondPassesFacts(a: Node, b: Node, key: string, f: Filter)
    requires SecondPasses(a, b, key, f)
    ensures MatchKey([a, b], Block(key, false, [])) == [a, b]
    ensures WithProperty([a, b], f) == [b]
    ensures WithProperty([b], f) == [b]
    ensures WithProperty([a], f) == []
  {
    var items := [a, b];
    assert items[..1] == [a] && [a][..0] == [] && [b][..0] == [];
    assert WithName([a], key) == [a];
    assert WithName(items, key) == WithName(items[..1], key) + [b];
    assert WithProperty([a], f) == [];
    assert WithProperty(items, f) == WithProperty(items[..1], f) + [b];
  }

  /** `//filterA[1]{p1=B}`: the index picks the second item, which passes the property filter. */
  lemma IndexThenProperty(a: Node, b: Node, key: string, f: Filter)
    requires SecondPasses(a, b, key, f)
    ensures EvaluatePath([a, b], [Block(key, false, [Index(1), f])]) == Some(b)
  {
    SecondPassesFacts(a, b, key, f);
    TwoFilters([a, b], Index(1), f);
    EvaluateOneBlock([a, b], Block(key, false, [Index(1), f]));
  }

  /** `//filterA{p1=B}[0]`: the property filter keeps the second item only, and the index takes it. */
  lemma PropertyThenIndex(a: Node, b: Node, key: string, f: Filter)
    requires SecondPasses(a, b, key, f)
    ensures EvaluatePath([a, b], [Block(key, false, [f, Index(0)])]) == Some(b)
  {
    SecondPassesFacts(a, b, key, f);
    TwoFilters([a, b], f, Index(0));
    EvaluateOneBlock([a, b], Block(key, false, [f, Index(0)]));
  }

  /** The filters apply in the order written: `[0]{p1=B}` keeps the first item, which fails the property filter. */
  lemma IndexFirstFindsNothing(a: Node, b: Node, key: string, f: Filter)
    requires SecondPasses(a, b, key, f)
    ensures EvaluatePath([a, b], [Block(key, false, [Index(0), f])]) == None
  {
    SecondPassesFacts(a, b, key, f);
    TwoFilters([a, b], Index(0), f);
    EvaluateOneBlock([a, b], Block(key, false, [Index(0), f]));
  }
}
