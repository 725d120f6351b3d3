/**
 * What the grammar of module PathSyntax accepts, stated independently of the
 * scanner: a printer for blocks, the round trip from printed blocks back to
 * the same blocks, the shape of every block that a successful parse yields,
 * and the behaviour of the two filter bodies.
 */
module PathSyntaxProperties {

  import opened Optional
  import opened PathSyntax

  /** The canonical spelling of a filter. */
  function RenderFilter(f: Filter): string
  {
    match f
    case Index(n) => "[" + DecimalString(n) + "]"
    case Property(_, _, _) => "{" + PropertyBody(f) + "}"
  }

  /** The text between the braces of a property filter: the name, then `=` and the value if there is one. */
  function PropertyBody(f: Filter): string
    requires f.Property?
  {
    f.name + (if f.hasValue then "=" + f.value else "")
  }

  function RenderFilters(fs: seq<Filter>): string
  {
    if |fs| == 0 then "" else RenderFilter(fs[0]) + RenderFilters(fs[1..])
  }

  /** The canonical spelling of a block: separator, descendant marker, key, filters. */
  function RenderBlock(b: Block): string
  {
    "/" + (if b.nested then "/" else "") + b.key + RenderFilters(b.filters)
  }

  function Render(bs: seq<Block>): string
  {
    if |bs| == 0 then "" else RenderBlock(bs[0]) + Render(bs[1..])
  }

  /** A filter that the grammar can express: an index that fits an int, a property name and value free of `=` and `}`. */
  predicate WellFormedFilter(f: Filter)
  {
    match f
    case Index(n) => n <= IntMax
    case Property(name, hasValue, value) =>
      |name| > 0 && '=' !in name && '}' !in name && '=' !in value && '}' !in value
      && (hasValue || value == "")
  }

  predicate WellFormedFilters(fs: seq<Filter>)
  {
    forall k :: 0 <= k < |fs| ==> WellFormedFilter(fs[k])
  }

  predicate WellFormedKey(key: string)
  {
    forall k :: 0 <= k < |key| ==> !IsKeyEnd(key[k])
  }

  predicate WellFormedBlock(b: Block)
  {
    WellFormedKey(b.key) && WellFormedFilters(b.filters)
  }

  /** A `//` with nothing after it in its block. */
  predicate IsBareDescendant(b: Block)
  {
    b.nested && b.key == "" && b.filters == []
  }

  /**
   * The block lists that parse can produce: at least one block, each block
   * well formed, a terminal block only at the end, and no bare `//` at the end.
   */
  predicate WellFormedPath(bs: seq<Block>)
  {
    && |bs| > 0
    && (forall k :: 0 <= k < |bs| ==> WellFormedBlock(bs[k]))
    && (forall k :: 0 <= k < |bs| - 1 ==> bs[k] != Terminal)
    && !IsBareDescendant(bs[|bs| - 1])
  }

  // ---------------------------------------------------------------------
  // Filter bodies

  lemma SplitWithout(t: string, sep: char)
    requires sep !in t
    ensures Split(t, sep) == [t]
  {
  }

  lemma SplitPair(a: string, b: string, sep: char)
    requires sep !in a && sep !in b
    ensures Split(a + [sep] + b, sep) == [a, b]
  {
    var t := a + [sep] + b;
    FindFirst(t, sep, |a|);
    assert t[..|a|] == a && t[|a| + 1..] == b;
    SplitWithout(b, sep);
  }

  /**
   * A property body is accepted exactly when it is a non-empty name, or a
   * non-empty name, one `=` and a value, with no other `=`; `hasValue` records
   * whether the `=` is there, and the value may be empty.
   */
  lemma {:induction false} PropertyFilterIff(body: string, f: Filter)
    ensures PropertyFilter(body) == Some(f) <==>
      && f.Property? && |f.name| > 0 && '=' !in f.name && '=' !in f.value
      && (if f.hasValue then body == f.name + "=" + f.value else body == f.name && f.value == "")
  {
    var parts := Split(body, '=');
    if |parts| == 2 {
      assert Join(parts, '=') == parts[0] + "=" + parts[1];
    }
    if f.Property? && |f.name| > 0 && '=' !in f.name && '=' !in f.value {
      if f.hasValue && body == f.name + "=" + f.value {
        SplitPair(f.name, f.value, '=');
      } else if !f.hasValue && body == f.name {
        SplitWithout(body, '=');
      }
    }
  }

  /** `body` spells the index `n` with the digits `d`: bare, after `+`, or after `-` when `n` is zero. */
  predicate IndexSpelling(body: string, d: string, n: nat) {
    && |d| > 0 && AllDigits(d) && DecimalValue(d) == n
    && (body == d || body == "+" + d || (body == "-" + d && n == 0))
  }

  /**
   * An index body is accepted exactly when it is a non-empty run of decimal
   * digits whose value fits an int, written bare, after `+`, or after `-` when
   * the value is zero.
   */
  lemma {:induction false} IndexFilterIff(body: string, n: nat)
    ensures IndexFilter(body) == Some(Index(n)) <==> n <= IntMax && exists d :: IndexSpelling(body, d, n)
  {
    if IndexFilter(body) == Some(Index(n)) {
      var signed := body[0] == '-' || body[0] == '+';
      var d := if signed then body[1..] else body;
      assert body == d || body == "+" + d || body == "-" + d;
      assert IndexSpelling(body, d, n);
    }
    if n <= IntMax && exists d :: IndexSpelling(body, d, n) {
      var d :| IndexSpelling(body, d, n);
      if body == d {
        assert IsDigit(d[0]);
      } else {
        assert body[1..] == d;
      }
    }
  }

  /** A minus sign followed by a non-zero decimal number is refused as an index. */
  lemma NegativeIndexRejected(d: string)
    requires |d| > 0 && AllDigits(d) && DecimalValue(d) > 0
    ensures IndexFilter("-" + d) == None
  {
    assert ("-" + d)[1..] == d;
  }

  lemma ToIntDecimal(n: nat)
    requires n <= IntMax
    ensures ToInt(DecimalString(n)) == Some(n)
  {
    var d := DecimalString(n);
    assert IsDigit(d[0]);
  }

  // ---------------------------------------------------------------------
  // Round trip: printed blocks parse back to themselves

  /** A bracketed body whose closing bracket is the first one scans to the filter of that body. */
  lemma ScanIndexOf(u: string, body: string, rest: string)
    requires u == "[" + body + "]" + rest && ']' !in body
    ensures ScanIndex(u) == ScanOf(IndexFilter(body), rest)
  {
    FindFirst(u[1..], ']', |body|);
    assert u[1..|body| + 1] == body;
    assert u[|body| + 2..] == rest;
  }

  lemma ScanPropertyOf(u: string, body: string, rest: string)
    requires u == "{" + body + "}" + rest && '}' !in body
    ensures ScanProperty(u) == ScanOf(PropertyFilter(body), rest)
  {
    FindFirst(u[1..], '}', |body|);
    assert u[1..|body| + 1] == body;
    assert u[|body| + 2..] == rest;
  }

  lemma ScanIndexRender(n: nat, rest: string)
    requires n <= IntMax
    ensures ScanIndex(RenderFilter(Index(n)) + rest) == Scanned([Index(n)], rest)
  {
    var d := DecimalString(n);
    ScanIndexOf(RenderFilter(Index(n)) + rest, d, rest);
    ToIntDecimal(n);
  }

  lemma ScanPropertyRender(f: Filter, rest: string)
    requires f.Property? && WellFormedFilter(f)
    ensures ScanProperty(RenderFilter(f) + rest) == Scanned([f], rest)
  {
    var body := PropertyBody(f);
    assert '}' !in body;
    ScanPropertyOf(RenderFilter(f) + rest, body, rest);
    PropertyFilterIff(body, f);
  }

  lemma RenderFiltersStart(fs: seq<Filter>, w: string)
    requires |fs| > 0
    ensures |RenderFilters(fs) + w| > 0
    ensures (RenderFilters(fs) + w)[0] == (if fs[0].Index? then '[' else '{')
  {
  }

  lemma RoundIndexAlone(n: nat, tail: string)
    requires n <= IntMax
    requires |tail| == 0 || tail[0] != '{'
    ensures Round(RenderFilter(Index(n)) + tail) == Scanned([Index(n)], tail)
  {
    ScanIndexRender(n, tail);
  }

  lemma RoundIndexProperty(n: nat, f: Filter, rest: string)
    requires n <= IntMax && f.Property? && WellFormedFilter(f)
    ensures Round(RenderFilter(Index(n)) + (RenderFilter(f) + rest)) == Scanned([Index(n), f], rest)
  {
    ScanIndexRender(n, RenderFilter(f) + rest);
    ScanPropertyRender(f, rest);
  }

  lemma RoundProperty(f: Filter, tail: string)
    requires f.Property? && WellFormedFilter(f)
    ensures Round(RenderFilter(f) + tail) == Scanned([f], tail)
  {
    ScanPropertyRender(f, tail);
  }

  lemma RenderFiltersCons(fs: seq<Filter>, w: string)
    requires |fs| > 0
    ensures RenderFilters(fs) + w == RenderFilter(fs[0]) + (RenderFilters(fs[1..]) + w)
  {
  }

  /** One round of the filter loop, followed by the rest of the loop. */
  lemma ParseFiltersStep(u: string, found: seq<Filter>, rest: string, fs: seq<Filter>, w: string)
    requires |u| > 0 && (u[0] == '[' || u[0] == '{')
    requires Round(u) == Scanned(found, rest)
    requires ParseFilters(rest) == FiltersOk(fs, w)
    ensures ParseFilters(u) == FiltersOk(found + fs, w)
  {
  }

  /** An index filter followed by a property filter is one round of the filter loop. */
  lemma ParseFiltersPairStep(fs: seq<Filter>, w: string)
    requires |fs| >= 2 && fs[0].Index? && fs[1].Property? && WellFormedFilters(fs)
    requires ParseFilters(RenderFilters(fs[2..]) + w) == FiltersOk(fs[2..], w)
    ensures ParseFilters(RenderFilters(fs) + w) == FiltersOk(fs, w)
  {
    var rest := RenderFilters(fs[2..]) + w;
    var tail := RenderFilters(fs[1..]) + w;
    var u := RenderFilter(fs[0]) + tail;
    RenderFiltersCons(fs, w);
    assert fs[1..][1..] == fs[2..];
    RenderFiltersCons(fs[1..], w);
    RoundIndexProperty(fs[0].index, fs[1], rest);
    ParseFiltersStep(u, [fs[0], fs[1]], rest, fs[2..], w);
    assert [fs[0], fs[1]] + fs[2..] == fs;
  }

  /** An index filter not followed by a property filter is a round of its own. */
  lemma ParseFiltersIndexStep(fs: seq<Filter>, w: string)
    requires |fs| >= 1 && fs[0].Index? && fs[0].index <= IntMax && !(|fs| > 1 && fs[1].Property?)
    requires |w| == 0 || w[0] == '/'
    requires ParseFilters(RenderFilters(fs[1..]) + w) == FiltersOk(fs[1..], w)
    ensures ParseFilters(RenderFilters(fs) + w) == FiltersOk(fs, w)
  {
    var tail := RenderFilters(fs[1..]) + w;
    RenderFiltersCons(fs, w);
    if |fs| > 1 {
      RenderFiltersStart(fs[1..], w);
    }
    RoundIndexAlone(fs[0].index, tail);
    ParseFiltersStep(RenderFilter(fs[0]) + tail, [fs[0]], tail, fs[1..], w);
    assert [fs[0]] + fs[1..] == fs;
  }

  /** A property filter is a round of its own. */
  lemma ParseFiltersPropertyStep(fs: seq<Filter>, w: string)
    requires |fs| >= 1 && fs[0].Property? && WellFormedFilter(fs[0])
    requires ParseFilters(RenderFilters(fs[1..]) + w) == FiltersOk(fs[1..], w)
    ensures ParseFilters(RenderFilters(fs) + w) == FiltersOk(fs, w)
  {
    var tail := RenderFilters(fs[1..]) + w;
    RenderFiltersCons(fs, w);
    RoundProperty(fs[0], tail);
    ParseFiltersStep(RenderFilter(fs[0]) + tail, [fs[0]], tail, fs[1..], w);
    assert [fs[0]] + fs[1..] == fs;
  }

  /** Printed filters followed by the end of the input or a `/` parse back to the same filters. */
  lemma {:induction false} ParseFiltersRender(fs: seq<Filter>, w: string)
    requires WellFormedFilters(fs)
    requires |w| == 0 || w[0] == '/'
    ensures ParseFilters(RenderFilters(fs) + w) == FiltersOk(fs, w)
    decreases |fs|
  {
    if |fs| == 0 {
      assert RenderFilters(fs) + w == w;
    } else if fs[0].Index? && |fs| > 1 && fs[1].Property? {
      ParseFiltersRender(fs[2..], w);
      ParseFiltersPairStep(fs, w);
    } else if fs[0].Index? {
      ParseFiltersRender(fs[1..], w);
      assert WellFormedFilter(fs[0]);
      ParseFiltersIndexStep(fs, w);
    } else {
      ParseFiltersRender(fs[1..], w);
      assert WellFormedFilter(fs[0]);
      ParseFiltersPropertyStep(fs, w);
    }
  }

  /** A printed block followed by the end of the input or by `/...` parses back to the same block. */
  lemma ParseBlockRender(b: Block, w: string)
    requires WellFormedBlock(b)
    requires |w| == 0 || w[0] == '/'
    requires b == Terminal ==> |w| == 0
    requires IsBareDescendant(b) ==> |w| > 0
    ensures ParseBlock(RenderBlock(b) + w) == BlockOk(b, w)
  {
    var t := RenderBlock(b) + w;
    var after := RenderFilters(b.filters) + w;
    var t2 := b.key + after;
    RenderBlockSplit(b, w);
    if |b.filters| > 0 {
      RenderFiltersStart(b.filters, w);
    }
    FindKeyEnd(t2, |b.key|);
    assert t2[..|b.key|] == b.key && t2[|b.key|..] == after;
    ParseFiltersRender(b.filters, w);
    assert KeyAndFilters(t2, b.nested) == BlockOk(b, w);
    if b == Terminal {
      assert |t| == 1;
    }
  }

  /** The printed block, seen as its separator and marker followed by the key, filters and what comes after. */
  lemma RenderBlockSplit(b: Block, w: string)
    ensures var t := RenderBlock(b) + w; var j := if b.nested then 2 else 1;
      && |t| >= j && t[0] == '/' && (b.nested ==> t[1] == '/')
      && t[j..] == b.key + (RenderFilters(b.filters) + w)
  {
    var prefix: string := "/" + (if b.nested then "/" else "");
    var filters := RenderFilters(b.filters);
    Associative(prefix + b.key, filters, w);
    Associative(prefix, b.key, filters + w);
    DropPrefix(prefix, b.key + (filters + w));
  }

  lemma Associative(a: string, b: string, c: string)
    ensures (a + b) + c == a + (b + c)
  {
  }

  lemma DropPrefix(a: string, b: string)
    ensures (a + b)[|a|..] == b
  {
  }

  lemma RenderStart(bs: seq<Block>)
    ensures |bs| > 0 <==> |Render(bs)| > 0
    ensures |bs| > 0 ==> Render(bs)[0] == '/'
  {
  }

  /** Every well-formed block list is what parse yields for its printed form. */
  lemma {:induction false} ParseRender(bs: seq<Block>)
    requires WellFormedPath(bs)
    ensures ParsePath(Render(bs)) == Parsed(bs)
    decreases |bs|
  {
    var w := Render(bs[1..]);
    RenderStart(bs[1..]);
    ParseBlockRender(bs[0], w);
    if |bs| == 1 {
      ParseBlocksLast(RenderBlock(bs[0]) + w, bs[0]);
      assert bs == [bs[0]];
    } else {
      WellFormedPathTail(bs);
      ParseRender(bs[1..]);
      ParseBlocksCons(RenderBlock(bs[0]) + w, bs[0], w, bs[1..]);
      assert [bs[0]] + bs[1..] == bs;
    }
  }

  lemma WellFormedPathTail(bs: seq<Block>)
    requires WellFormedPath(bs) && |bs| > 1
    ensures WellFormedPath(bs[1..])
  {
    assert bs[1..][|bs| - 2] == bs[|bs| - 1];
  }

  lemma ParseBlocksLast(t: string, b: Block)
    requires |t| > 0 && ParseBlock(t) == BlockOk(b, [])
    ensures ParseBlocks(t) == Parsed([b])
  {
  }

  lemma ParseBlocksCons(t: string, b: Block, w: string, bs: seq<Block>)
    requires |t| > 0 && |w| > 0 && ParseBlock(t) == BlockOk(b, w)
    requires ParsePath(w) == Parsed(bs)
    ensures ParseBlocks(t) == Parsed([b] + bs)
  {
  }

  // ---------------------------------------------------------------------
  // Converse: whatever parse yields is well formed

  lemma ScanIndexWellFormed(u: string)
    requires u != [] && u[0] == '['
    ensures ScanIndex(u).Scanned? ==> WellFormedFilter(ScanIndex(u).filters[0])
  {
  }

  lemma ScanPropertyWellFormed(u: string)
    requires u != [] && u[0] == '{'
    ensures ScanProperty(u).Scanned? ==> WellFormedFilter(ScanProperty(u).filters[0])
  {
    var n := Find(u[1..], '}');
    if n < |u| - 1 {
      BodyBeforeClose(u, n);
      PropertyFilterWellFormed(u[1..n + 1]);
    }
  }

  lemma BodyBeforeClose(u: string, n: nat)
    requires u != [] && n == Find(u[1..], '}') && n < |u| - 1
    ensures '}' !in u[1..n + 1]
  {
    assert u[1..n + 1] == u[1..][..n];
  }

  lemma PropertyFilterWellFormed(body: string)
    requires '}' !in body
    ensures PropertyFilter(body).Some? ==> WellFormedFilter(PropertyFilter(body).value)
  {
    var f := PropertyFilter(body);
    if f.Some? {
      PropertyFilterIff(body, f.value);
    }
  }

  lemma RoundWellFormed(u: string)
    requires |u| > 0 && (u[0] == '[' || u[0] == '{')
    ensures Round(u).Scanned? ==> WellFormedFilters(Round(u).filters)
  {
    if u[0] == '[' {
      ScanIndexWellFormed(u);
      match ScanIndex(u)
      case ScanFailed =>
      case Scanned(fs, rest) => PropertyPartWellFormed(rest, fs);
    } else {
      PropertyPartWellFormed(u, []);
    }
  }

  lemma PropertyPartWellFormed(t: string, before: seq<Filter>)
    requires WellFormedFilters(before)
    ensures PropertyPart(t, before).Scanned? ==> WellFormedFilters(PropertyPart(t, before).filters)
  {
    if |t| > 0 && t[0] == '{' {
      ScanPropertyWellFormed(t);
    }
  }

  lemma {:induction false} ParseFiltersWellFormed(u: string)
    ensures ParseFilters(u).FiltersOk? ==> WellFormedFilters(ParseFilters(u).filters)
    decreases |u|
  {
    if |u| > 0 && (u[0] == '[' || u[0] == '{') {
      RoundWellFormed(u);
      match Round(u)
      case ScanFailed =>
      case Scanned(fs, rest) =>
        ParseFiltersWellFormed(rest);
    }
  }

  /**
   * A block that parseInternal accepts is well formed; it is the terminal
   * block only when the input was a lone `/`, and a bare `//` is accepted
   * only when more input follows.
   */
  lemma ParseBlockWellFormed(t: string)
    requires |t| > 0
    ensures var r := ParseBlock(t);
      r.BlockOk? ==>
        && WellFormedBlock(r.block)
        && (r.block == Terminal ==> r.rest == [])
        && (IsBareDescendant(r.block) ==> r.rest != [])
  {
    if !(t[0] == '/' && |t| == 1) {
      var j := if t[0] == '/' then 1 else 0;
      if !(t[j] == '/' && |t| == j + 1) {
        var t2 := if t[j] == '/' then t[j + 1..] else t[j..];
        var n := KeyLength(t2);
        ParseFiltersWellFormed(t2[n..]);
      }
    }
  }

  lemma {:induction false} ParseBlocksWellFormed(t: string)
    requires |t| > 0
    ensures ParseBlocks(t).Parsed? ==> WellFormedPath(ParseBlocks(t).blocks)
    decreases |t|
  {
    ParseBlockWellFormed(t);
    match ParseBlock(t)
    case BlockRejected =>
    case BlockDiverges =>
    case BlockOk(b, rest) =>
      if |rest| > 0 {
        ParseBlocksWellFormed(rest);
        var r := ParseBlocks(rest);
        if r.Parsed? {
          WellFormedPathCons(b, r.blocks);
        }
      }
  }

  /** A well-formed block that is not the terminal block, in front of a well-formed path, gives a well-formed path. */
  lemma WellFormedPathCons(b: Block, bs: seq<Block>)
    requires WellFormedBlock(b) && b != Terminal && WellFormedPath(bs)
    ensures WellFormedPath([b] + bs)
  {
    var cs := [b] + bs;
    assert cs[|cs| - 1] == bs[|bs| - 1];
    assert forall k :: 1 <= k < |cs| ==> cs[k] == bs[k - 1];
  }

  /** Every result of parse is well formed, so with ParseRender the well-formed lists are exactly what parse yields. */
  lemma ParsedWellFormed(s: string)
    ensures ParsePath(s).Parsed? ==> WellFormedPath(ParsePath(s).blocks)
  {
    if |s| > 0 {
      ParseBlocksWellFormed(s);
    }
  }
}
