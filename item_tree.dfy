/**
 * The part of a QQuickItem tree that QmlPath reads: the objectName, the
 * properties by name (as the strings QVariant::toString yields), the child
 * items in order, and the optional `contentItem` property. Items are values,
 * so the tree has no cycles and two equal items are indistinguishable.
 */
module ItemTree {

  import opened Optional

  datatype Node = Node(name: string, props: map<string, string>, children: seq<Node>, content: Option<Node>)

  /** Number of items in the tree below and including `n`, counting content items. */
  function Size(n: Node): nat
    decreases n, 1
  {
    1 + SizeOf(n.children) + (match n.content case None => 0 case Some(c) => Size(c))
  }

  function SizeOf(ns: seq<Node>): nat
    decreases ns, 0
  {
    if |ns| == 0 then 0 else SizeOf(ns[..|ns| - 1]) + Size(ns[|ns| - 1])
  }

  lemma {:induction false} SizeOfAppend(a: seq<Node>, b: seq<Node>)
    ensures SizeOf(a + b) == SizeOf(a) + SizeOf(b)
    decreases |b|
  {
    if |b| > 0 {
      assert (a + b)[..|a + b| - 1] == a + b[..|b| - 1];
      SizeOfAppend(a, b[..|b| - 1]);
    } else {
      assert a + b == a;
    }
  }

  lemma {:induction false} SizeOfMember(ns: seq<Node>, m: Node)
    requires m in ns
    ensures Size(m) <= SizeOf(ns)
    decreases |ns|
  {
    if m != ns[|ns| - 1] {
      assert m in ns[..|ns| - 1];
      SizeOfMember(ns[..|ns| - 1], m);
    }
  }

  /**
   * collectChildItems: the child items of `n`, then those that the content
   * item contributes, following `contentItem` as far as it goes. Every item
   * collected is strictly smaller than `n`.
   */
  function CollectChildItems(n: Node): (r: seq<Node>)
    ensures SizeOf(r) < Size(n)
    decreases n
  {
    match n.content
    case None => n.children
    case Some(c) =>
      SizeOfAppend(n.children, CollectChildItems(c));
      n.children + CollectChildItems(c)
  }

  /** `n`, its content item, the content item of that, and so on. */
  function ContentChain(n: Node): (r: seq<Node>)
    decreases n
  {
    [n] + match n.content case None => [] case Some(c) => ContentChain(c)
  }

  /** An item is collected exactly when it is a child of `n` or of an item on its content chain. */
  lemma {:induction false} CollectChildItemsMember(n: Node, m: Node)
    ensures m in CollectChildItems(n) <==> exists p :: p in ContentChain(n) && m in p.children
    decreases n
  {
    match n.content
    case None =>
      assert ContentChain(n) == [n];
    case Some(c) =>
      CollectChildItemsMember(c, m);
      assert ContentChain(n) == [n] + ContentChain(c);
      if m in CollectChildItems(n) && m !in n.children {
        assert m in CollectChildItems(c);
      }
  }

  /** Reference definition: every item below `n`, each followed by the items below it, in child order. */
  function Descendants(n: Node): (r: seq<Node>)
    decreases Size(n), 0
  {
    DescendantsIn(CollectChildItems(n))
  }

  function DescendantsIn(cs: seq<Node>): (r: seq<Node>)
    decreases SizeOf(cs), 1
  {
    if |cs| == 0 then []
    else
      var last := cs[|cs| - 1];
      assert SizeOf(cs) == SizeOf(cs[..|cs| - 1]) + Size(last);
      DescendantsIn(cs[..|cs| - 1]) + [last] + Descendants(last)
  }

  /** The items below the collected items, and the collected items themselves, are below `n`. */
  lemma {:induction false} DescendantsInMember(cs: seq<Node>, m: Node)
    ensures m in DescendantsIn(cs) <==> exists c :: c in cs && (m == c || m in Descendants(c))
    decreases |cs|
  {
    if |cs| > 0 {
      var init, last := cs[..|cs| - 1], cs[|cs| - 1];
      DescendantsInMember(init, m);
      assert cs == init + [last];
      assert DescendantsIn(cs) == DescendantsIn(init) + [last] + Descendants(last);
      if m in DescendantsIn(init) {
        var c :| c in init && (m == c || m in Descendants(c));
        assert c in cs;
      } else if m in DescendantsIn(cs) {
        assert last in cs && (m == last || m in Descendants(last));
      }
      if c :| c in cs && (m == c || m in Descendants(c)) {
        if c != last {
          assert c in init;
        }
      }
    }
  }

  /** An item is below `n` exactly when it is collected from `n` or below an item collected from `n`. */
  lemma DescendantsMember(n: Node, m: Node)
    ensures m in Descendants(n) <==> exists c :: c in CollectChildItems(n) && (m == c || m in Descendants(c))
  {
    DescendantsInMember(CollectChildItems(n), m);
  }

  /** Every item below `n` is smaller than `n`, so no item is below itself. */
  lemma {:induction false} DescendantsSmaller(n: Node, m: Node)
    requires m in Descendants(n)
    ensures Size(m) < Size(n)
    decreases Size(n)
  {
    var cs := CollectChildItems(n);
    DescendantsMember(n, m);
    var c :| c in cs && (m == c || m in Descendants(c));
    SizeOfMember(cs, c);
    if m != c {
      DescendantsSmaller(c, m);
    }
  }

  /** The items whose objectName is `key`, in their order. */
  function WithName(items: seq<Node>, key: string): seq<Node>
  {
    if |items| == 0 then []
    else
      var last := items[|items| - 1];
      WithName(items[..|items| - 1], key) + (if last.name == key then [last] else [])
  }

  lemma {:induction false} WithNameMember(items: seq<Node>, key: string, m: Node)
    ensures m in WithName(items, key) <==> m in items && m.name == key
    decreases |items|
  {
    if |items| > 0 {
      WithNameMember(items[..|items| - 1], key, m);
      assert items == items[..|items| - 1] + [items[|items| - 1]];
    }
  }

  lemma {:induction false} WithNameAppend(a: seq<Node>, b: seq<Node>, key: string)
    ensures WithName(a + b, key) == WithName(a, key) + WithName(b, key)
    decreases |b|
  {
    if |b| == 0 {
      assert a + b == a;
    } else {
      assert (a + b)[..|a + b| - 1] == a + b[..|b| - 1];
      WithNameAppend(a, b[..|b| - 1], key);
    }
  }

  /** One more collected item: itself if its name is `key`, then the named items below it. */
  lemma FoundStep(cs: seq<Node>, k: nat, key: string)
    requires k < |cs|
    ensures WithName(DescendantsIn(cs[..k + 1]), key) ==
      WithName(DescendantsIn(cs[..k]), key) + (if cs[k].name == key then [cs[k]] else [])
      + WithName(Descendants(cs[k]), key)
  {
    assert cs[..k + 1][..k] == cs[..k];
    WithNameAppend(DescendantsIn(cs[..k]) + [cs[k]], Descendants(cs[k]), key);
    WithNameAppend(DescendantsIn(cs[..k]), [cs[k]], key);
  }

  /**
   * findItems: every item below `item` whose objectName is `key`, in the order
   * of a depth-first walk over the collected child items.
   */
  method FindItems(item: Node, key: string) returns (list: seq<Node>)
    ensures list == WithName(Descendants(item), key)
    decreases Size(item)
  {
    var cs := CollectChildItems(item);
    list := [];
    for k := 0 to |cs|
      invariant list == WithName(DescendantsIn(cs[..k]), key)
    {
      var child := cs[k];
      if child.name == key {
        list := list + [child];
      }
      SizeOfMember(cs, child);
      var found := FindItems(child, key);
      list := list + found;
      FoundStep(cs, k, key);
    }
    assert cs[..|cs|] == cs;
  }
}
