/**
 * The QmlPath object: the blocks it stores, the cursor scanner that fills
 * them (parse and parseInternal) and the evaluation against a tree of items.
 */
module PathQuery {

  import opened Optional
  import opened PathSyntax
  import opened ItemTree
  import opened PathEvaluation

  /** A root object of the QML engine: a QQuickItem, or some other QObject that the item cast turns away. */
  datatype RootObject = ItemObject(item: Node) | OtherObject

  /** The QML application engine, as far as evaluate looks at it. */
  datatype Engine = Engine(rootObjects: seq<RootObject>)

  /** The root objects that are items, in their order. */
  function RootItems(objects: seq<RootObject>): (r: seq<Node>)
    ensures |r| <= |objects|
    ensures forall m :: m in r <==> ItemObject(m) in objects
  {
    if |objects| == 0 then []
    else
      var last := objects[|objects| - 1];
      assert objects == objects[..|objects| - 1] + [last];
      RootItems(objects[..|objects| - 1]) + (if last.ItemObject? then [last.item] else [])
  }

  /** One root object contributes its item when it is an item, and nothing otherwise. */
  lemma RootItemsOne(o: RootObject)
    ensures RootItems([o]) == if o.ItemObject? then [o.item] else []
  {
    assert [o][..0] == [];
  }

  /** The root items of two runs of objects are those of the first run, then those of the second: order and repetitions are kept. */
  lemma {:induction false} RootItemsAppend(a: seq<RootObject>, b: seq<RootObject>)
    ensures RootItems(a + b) == RootItems(a) + RootItems(b)
    decreases |b|
  {
    if |b| == 0 {
      assert a + b == a;
    } else {
      assert (a + b)[..|a + b| - 1] == a + b[..|b| - 1];
      RootItemsAppend(a, b[..|b| - 1]);
    }
  }

  /** What parse or parseInternal does with an input: returns true, returns false, or never returns. */
  datatype Status = Accepted | Rejected | Diverges

  function BlockStatus(r: BlockResult): Status
  {
    match r
    case BlockOk(_, _) => Accepted
    case BlockRejected => Rejected
    case BlockDiverges => Diverges
  }

  function FiltersStatus(r: FiltersResult): Status
  {
    match r
    case FiltersOk(_, _) => Accepted
    case FiltersRejected => Rejected
    case FiltersDiverge => Diverges
  }

  /** The block that parseInternal produces from a key and the outcome of its filter loop. */
  function WithKey(key: string, nested: bool, r: FiltersResult): BlockResult
  {
    match r
    case FiltersOk(fs, rest) => BlockOk(Block(key, nested, fs), rest)
    case FiltersRejected => BlockRejected
    case FiltersDiverge => BlockDiverges
  }

  /** An index body closed at `i`: the scan yields the filter of the body and leaves what follows `]`. */
  lemma ScanIndexClosed(s: string, start: nat, i: nat)
    requires start < |s| && s[start] == '[' && start + 1 <= i < |s|
    requires Find(s[start..][1..], ']') == i - start - 1
    ensures ScanIndex(s[start..]) == ScanOf(IndexFilter(s[start + 1..i]), s[i + 1..])
  {
    assert s[start..][1..i - start] == s[start + 1..i];
    assert s[start..][i - start + 1..] == s[i + 1..];
  }

  /** A property body closed at `i`: the scan yields the filter of the body and leaves what follows `}`. */
  lemma ScanPropertyClosed(s: string, start: nat, i: nat)
    requires start < |s| && s[start] == '{' && start + 1 <= i < |s|
    requires Find(s[start..][1..], '}') == i - start - 1
    ensures ScanProperty(s[start..]) == ScanOf(PropertyFilter(s[start + 1..i]), s[i + 1..])
  {
    assert s[start..][1..i - start] == s[start + 1..i];
    assert s[start..][i - start + 1..] == s[i + 1..];
  }

  /** The block once its key is known: the key at the cursor, then the filter loop from where the key ends. */
  lemma KeyAndFiltersSplit(s: string, start: nat, i: nat, nested: bool)
    requires start <= i <= |s| && i - start == KeyLength(s[start..])
    ensures KeyAndFilters(s[start..], nested) == WithKey(s[start..i], nested, ParseFilters(s[i..]))
  {
    var t := s[start..];
    assert t[..i - start] == s[start..i];
    assert t[i - start..] == s[i..];
    assert KeyAndFilters(t, nested) == WithKey(t[..i - start], nested, ParseFilters(t[i - start..]));
  }

  function PathStatus(r: PathResult): Status
  {
    match r
    case Parsed(_) => Accepted
    case PathRejected => Rejected
    case PathDiverges => Diverges
  }

  lemma PrefixedFiltersTwice(a: seq<Filter>, b: seq<Filter>, r: FiltersResult)
    ensures PrefixedFilters(a, PrefixedFilters(b, r)) == PrefixedFilters(a + b, r)
  {
    if r.FiltersOk? {
      assert a + (b + r.filters) == (a + b) + r.filters;
    }
  }

  lemma PrefixedNothing(r: PathResult)
    ensures Prefixed([], r) == r
  {
    if r.Parsed? {
      assert [] + r.blocks == r.blocks;
    }
  }

  lemma PrefixedTwice(a: seq<Block>, b: seq<Block>, r: PathResult)
    ensures Prefixed(a, Prefixed(b, r)) == Prefixed(a + b, r)
  {
    if r.Parsed? {
      assert a + (b + r.blocks) == (a + b) + r.blocks;
    }
  }

  class QmlPath {

    /** The blocks of the last path that parsed (m_blocks). */
    var blocks: seq<Block>

    constructor ()
      ensures blocks == []
    {
      blocks := [];
    }

    /**
     * QmlPath::parse. The stored blocks are replaced only when the whole input
     * parses; a rejected input leaves them as they were, and so does an input
     * on which the source never returns. Read with the corrected parse, the
     * status is true or false and the stored blocks are the corrected parse's.
     */
    method Parse(s: string) returns (status: Status)
      modifies this
      ensures status == PathStatus(ParsePath(s))
      ensures blocks == (if ParsePath(s).Parsed? then ParsePath(s).blocks else old(blocks))
      ensures (status == Accepted) == ParsePathFixed(s).Parsed?
      ensures ParsePathFixed(s).Parsed? ==> blocks == ParsePathFixed(s).blocks
      ensures status == Accepted ==> |blocks| > 0
    {
      if |s| == 0 {
        return Rejected;
      }
      var i := 0;
      var parsed: seq<Block> := [];
      assert ParsePath(s) == Prefixed(parsed, ParseBlocks(s[i..])) by {
        assert s[i..] == s;
        PrefixedNothing(ParseBlocks(s));
      }
      while true
        invariant 0 <= i < |s|
        invariant ParsePath(s) == Prefixed(parsed, ParseBlocks(s[i..]))
        invariant blocks == old(blocks)
        decreases |s| - i
      {
        var st, j, more := ParseInternal(s, i, parsed);
        if st != Accepted {
          assert ParseBlocks(s[i..]) == (if st == Rejected then PathRejected else PathDiverges);
          return st;
        }
        ghost var b := ParseBlock(s[i..]).block;
        if j == |s| {
          assert ParseBlocks(s[i..]) == Parsed([b]);
          parsed := more;
          break;
        }
        // The separator check that follows parseInternal in the source can never fail.
        assert s[j] == '/';
        assert ParseBlocks(s[i..]) == Prefixed([b], ParseBlocks(s[j..]));
        PrefixedTwice(parsed, [b], ParseBlocks(s[j..]));
        i, parsed := j, more;
      }
      blocks := parsed;
      status := Accepted;
    }

    /**
     * QmlPath::parseInternal: scans one block starting at the cursor `start`
     * and appends it to `done`. On success the cursor is left at the end of
     * the input or on a `/`.
     */
    static method ParseInternal(s: string, start: nat, done: seq<Block>) returns (status: Status, i: nat, blocks: seq<Block>)
      requires start < |s|
      ensures status == BlockStatus(ParseBlock(s[start..]))
      ensures status == Accepted ==> i <= |s| && s[i..] == ParseBlock(s[start..]).rest
      ensures blocks == if status == Accepted then done + [ParseBlock(s[start..]).block] else done
    {
      ghost var t := s[start..];
      i := start;
      blocks := done;
      var nested := false;
      if s[i] == '/' {
        i := i + 1;
        if i == |s| {
          assert t[0] == '/' && |t| == 1;
          blocks := done + [Terminal];
          return Accepted, i, blocks;
        }
      }
      ghost var j := i - start;
      assert j == if t[0] == '/' then 1 else 0;
      if s[i] == '/' {
        nested := true;
        i := i + 1;
        if i == |s| {
          assert t[j] == '/' && |t| == j + 1;
          return Rejected, i, done;
        }
      }
      assert ParseBlock(t) == KeyAndFilters(s[i..], nested) by {
        assert s[i..] == if nested then t[j + 1..] else t[j..];
      }
      var st, next, block := KeyAndFiltersAt(s, i, nested);
      if st != Accepted {
        return st, next, done;
      }
      i := next;
      blocks := done + [block];
      status := Accepted;
    }

    /**
     * The rest of parseInternal once the separator and the descendant marker
     * are consumed: the key loop, then the filter loop.
     */
    static method KeyAndFiltersAt(s: string, start: nat, nested: bool) returns (status: Status, i: nat, block: Block)
      requires start <= |s|
      ensures status == BlockStatus(KeyAndFilters(s[start..], nested))
      ensures status == Accepted ==> i <= |s| && s[i..] == KeyAndFilters(s[start..], nested).rest
      ensures status == Accepted ==> block == KeyAndFilters(s[start..], nested).block
    {
      var key;
      key, i := KeyAt(s, start);
      KeyAndFiltersSplit(s, start, i, nested);
      var filters;
      status, i, filters := FilterLoop(s, i);
      block := Block(key, nested, filters);
    }

    /** The key loop of parseInternal: the maximal run from `start` of characters other than `/`, `[` and `{`. */
    static method KeyAt(s: string, start: nat) returns (key: string, i: nat)
      requires start <= |s|
      ensures start <= i <= |s| && i - start == KeyLength(s[start..])
      ensures key == s[start..i]
    {
      i := start;
      key := "";
      while i < |s| && !IsKeyEnd(s[i])
        invariant start <= i <= |s|
        invariant key == s[start..i]
        invariant forall k :: start <= k < i ==> !IsKeyEnd(s[k])
      {
        key := key + [s[i]];
        i := i + 1;
      }
      FindKeyEnd(s[start..], i - start);
    }

    /**
     * The filter loop of parseInternal, from the cursor `start` to the end of
     * the input or the next `/`.
     */
    static method FilterLoop(s: string, start: nat) returns (status: Status, i: nat, filters: seq<Filter>)
      requires start <= |s|
      ensures status == FiltersStatus(ParseFilters(s[start..]))
      ensures status == Accepted ==> i <= |s| && ParseFilters(s[start..]) == FiltersOk(filters, s[i..])
    {
      i := start;
      filters := [];
      while i < |s| && s[i] != '/'
        invariant start <= i <= |s|
        invariant ParseFilters(s[start..]) == PrefixedFilters(filters, ParseFilters(s[i..]))
        decreases |s| - i
      {
        if s[i] != '[' && s[i] != '{' {
          // Neither branch of the loop body applies: the source repeats this round for ever.
          return Diverges, i, filters;
        }
        var ok, next, found := FilterRound(s, i);
        if !ok {
          return Rejected, next, filters;
        }
        PrefixedFiltersTwice(filters, found, ParseFilters(s[next..]));
        filters := filters + found;
        i := next;
      }
      assert ParseFilters(s[i..]) == FiltersOk([], s[i..]);
      status := Accepted;
    }

    /**
     * One round of the filter loop of parseInternal, on a `[` or a `{`: the
     * `[` branch, then the `{` branch, each taken when the cursor is on its
     * bracket. The filters found are appended in that order.
     */
    static method FilterRound(s: string, start: nat) returns (ok: bool, i: nat, found: seq<Filter>)
      requires start < |s| && (s[start] == '[' || s[start] == '{')
      ensures ok == Round(s[start..]).Scanned?
      ensures ok ==> start < i <= |s| && Round(s[start..]) == Scanned(found, s[i..])
    {
      if s[start] == '[' {
        var ok1, next, filter := IndexFilterAt(s, start);
        if !ok1 {
          return false, next, [];
        }
        ok, i, found := PropertyPartAt(s, next, [filter]);
      } else {
        ok, i, found := PropertyPartAt(s, start, []);
      }
    }

    /** The `{` branch of a round, taken when the cursor is on `{`. */
    static method PropertyPartAt(s: string, start: nat, before: seq<Filter>) returns (ok: bool, i: nat, found: seq<Filter>)
      requires start <= |s|
      ensures ok == PropertyPart(s[start..], before).Scanned?
      ensures ok ==> start <= i <= |s| && PropertyPart(s[start..], before) == Scanned(found, s[i..])
      ensures ok && start < |s| && s[start] == '{' ==> start < i
    {
      if start < |s| && s[start] == '{' {
        var ok2, next, filter := PropertyFilterAt(s, start);
        if !ok2 {
          return false, next, before;
        }
        return true, next, before + [filter];
      }
      return true, start, before;
    }

    /**
     * The body loops of the `[` and `{` branches: the characters from just
     * after the opening bracket at `start` up to the first `close`, or to the
     * end of the input when there is none.
     */
    static method BracketBody(s: string, start: nat, close: char) returns (i: nat, body: string)
      requires start < |s|
      ensures start + 1 <= i <= |s| && body == s[start + 1..i]
      ensures Find(s[start..][1..], close) == i - start - 1
      ensures i < |s| ==> s[i] == close
    {
      i := start + 1;
      body := "";
      while i < |s| && s[i] != close
        invariant start + 1 <= i <= |s|
        invariant body == s[start + 1..i]
        invariant forall k :: start + 1 <= k < i ==> s[k] != close
      {
        body := body + [s[i]];
        i := i + 1;
      }
      assert s[start..][1..] == s[start + 1..];
      FindFirst(s[start + 1..], close, i - start - 1);
    }

    /**
     * The `[` branch of the filter loop of parseInternal (the cursor is on `[`):
     * collects the body up to `]` and converts it to a non-negative int.
     */
    static method IndexFilterAt(s: string, start: nat) returns (ok: bool, i: nat, filter: Filter)
      requires start < |s| && s[start] == '['
      ensures ok == ScanIndex(s[start..]).Scanned?
      ensures ok ==> i <= |s| && s[i..] == ScanIndex(s[start..]).rest && [filter] == ScanIndex(s[start..]).filters
    {
      var close, number := BracketBody(s, start, ']');
      filter := Index(0);
      if close == |s| {
        return false, close, filter;
      }
      ScanIndexClosed(s, start, close);
      i := close + 1;
      var value := ToInt(number);
      if value.None? || value.value < 0 {
        return false, i, filter;
      }
      filter := Index(value.value);
      ok := true;
    }

    /**
     * The `{` branch of the filter loop of parseInternal (the cursor is on `{`):
     * collects the body up to `}` and splits it on `=` into name and value.
     */
    static method PropertyFilterAt(s: string, start: nat) returns (ok: bool, i: nat, filter: Filter)
      requires start < |s| && s[start] == '{'
      ensures ok == ScanProperty(s[start..]).Scanned?
      ensures ok ==> i <= |s| && s[i..] == ScanProperty(s[start..]).rest && [filter] == ScanProperty(s[start..]).filters
    {
      var close, propertyValue := BracketBody(s, start, '}');
      filter := Property("", false, "");
      if close == |s| {
        return false, close, filter;
      }
      ScanPropertyClosed(s, start, close);
      i := close + 1;
      var parts := Split(propertyValue, '=');
      if |parts| > 2 {
        return false, i, filter;
      }
      filter := filter.(name := parts[0]);
      if filter.name == "" {
        return false, i, filter;
      }
      if |parts| > 1 {
        filter := filter.(hasValue := true, value := parts[1]);
      }
      ok := true;
    }

    /**
     * QmlPath::evaluate. Without an engine or without a parsed path there is
     * no item; otherwise the walk starts from the root objects that are items.
     */
    method Evaluate(engine: Option<Engine>) returns (r: Option<Node>)
      ensures blocks == [] ==> r == None
      ensures engine == None ==> r == None
      ensures engine.Some? ==> r == EvaluatePath(RootItems(engine.value.rootObjects), blocks)
    {
      if engine == None {
        return None;
      }
      if blocks == [] {
        return None;
      }
      var objects := engine.value.rootObjects;
      var list := [];
      for k := 0 to |objects|
        invariant list == RootItems(objects[..k])
      {
        if objects[k].ItemObject? {
          list := list + [objects[k].item];
        }
        assert objects[..k + 1][..k] == objects[..k];
      }
      assert objects[..|objects|] == objects;
      r := EvaluateItems(None, list, 0);
      assert blocks[0..] == blocks;
    }

    /** QmlPath::evaluateItems, with the block iterator as an index into the stored blocks. */
    method EvaluateItems(current: Option<Node>, items: seq<Node>, i: nat) returns (r: Option<Node>)
      requires i <= |blocks|
      ensures r == EvaluateBlocks(current, items, blocks[i..])
      decreases |blocks| - i
    {
      if i == |blocks| {
        return current;
      }
      if |items| == 0 {
        return None;
      }
      var b := blocks[i];
      var results := MatchBlockKey(items, b);
      results := ApplyBlockFilters(results, b.filters);
      if |results| == 0 {
        return None;
      }
      assert blocks[i..][1..] == blocks[i + 1..];
      r := EvaluateItems(Some(results[0]), CollectChildItems(results[0]), i + 1);
    }

    /** The first part of evaluateItems: the candidates a block's key selects. */
    static method MatchBlockKey(items: seq<Node>, b: Block) returns (results: seq<Node>)
      ensures results == MatchKey(items, b)
    {
      if b.key == "" {
        return items;
      }
      results := NamedItems(items, b.key);
      if b.nested {
        var found := SearchEach(items, b.key);
        results := results + found;
      }
    }

    /** The items named `key`, in their order (the first loop over the candidates). */
    static method NamedItems(items: seq<Node>, key: string) returns (results: seq<Node>)
      ensures results == WithName(items, key)
    {
      results := [];
      for k := 0 to |items|
        invariant results == WithName(items[..k], key)
      {
        if items[k].name == key {
          results := results + [items[k]];
        }
        assert items[..k + 1][..k] == items[..k];
      }
      assert items[..|items|] == items;
    }

    /** The results of findItems for each candidate in turn (the second loop, for a `//` block). */
    static method SearchEach(items: seq<Node>, key: string) returns (results: seq<Node>)
      ensures results == FoundBelow(items, key)
    {
      results := [];
      for k := 0 to |items|
        invariant results == FoundBelow(items[..k], key)
      {
        var found := FindItems(items[k], key);
        results := results + found;
        assert items[..k + 1][..k] == items[..k];
      }
      assert items[..|items|] == items;
    }

    /** The second part of evaluateItems: the block's filters, applied in the order written. */
    static method ApplyBlockFilters(candidates: seq<Node>, fs: seq<Filter>) returns (results: seq<Node>)
      ensures results == ApplyFilters(candidates, fs)
    {
      results := candidates;
      for k := 0 to |fs|
        invariant results == ApplyFilters(candidates, fs[..k])
      {
        assert fs[..k + 1][..k] == fs[..k];
        match fs[k]
        case Index(n) =>
          results := FilterByIndex(results, n);
        case Property(_, _, _) =>
          results := FilterByProperty(results, fs[k]);
      }
      assert fs[..|fs|] == fs;
    }

    /**
     * QmlPath::filterByProperty: walks the list once, removing in place every
     * item that lacks the property or, when a value is given, whose property
     * text differs from it.
     */
    static method FilterByProperty(items: seq<Node>, f: Filter) returns (r: seq<Node>)
      requires f.Property?
      ensures r == WithProperty(items, f)
    {
      r := items;
      var i := 0;
      ghost var k := 0;
      while i < |r|
        invariant 0 <= i <= |r| && 0 <= k <= |items|
        invariant |r| - i == |items| - k
        invariant r[..i] == WithProperty(items[..k], f)
        invariant r[i..] == items[k..]
        decreases |r| - i
      {
        var item := r[i];
        assert item == items[k];
        assert items[..k + 1][..k] == items[..k];
        if f.name !in item.props {
          r := r[..i] + r[i + 1..];
        } else if !f.hasValue {
          i := i + 1;
        } else if item.props[f.name] != f.value {
          r := r[..i] + r[i + 1..];
        } else {
          i := i + 1;
        }
        k := k + 1;
      }
      assert items[..k] == items;
    }
  }
}
