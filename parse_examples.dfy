/**
 * Rows of the parser's test table (tests/testqmlpath.cpp, parse_data),
 * each proved against the grammar of module PathSyntax.
 */
module ParseExamples {

  import opened Optional
  import opened PathSyntax
  import opened PathSyntaxProperties

  /** A path of one printed block. */
  lemma ParseOneBlock(b: Block)
    requires WellFormedBlock(b) && !IsBareDescendant(b)
    ensures ParsePath(RenderBlock(b)) == Parsed([b])
  {
    assert Render([b]) == RenderBlock(b) + Render([]);
    assert RenderBlock(b) + [] == RenderBlock(b);
    ParseRender([b]);
  }

  lemma EmptyRejected()
    ensures ParsePath("") == PathRejected
  {
  }

  lemma RootAccepted()
    ensures ParsePath("/") == Parsed([Terminal])
  {
  }

  /** `//` with nothing after it is a descendant search without a key. */
  lemma SearchWithoutKeyRejected()
    ensures ParsePath("//") == PathRejected
  {
  }

  /** A key without a leading separator is a block of its own. */
  lemma KeyAccepted()
    ensures ParsePath("abc") == Parsed([Block("abc", false, [])])
  {
    FindKeyEnd("abc", 3);
    assert "abc"[3..] == [];
    assert "abc"[..3] == "abc";
  }

  /** A trailing `/` adds the terminal block. */
  lemma TrailingSlashAccepted()
    ensures ParsePath("/abc/cba/") == Parsed([Block("abc", false, []), Block("cba", false, []), Terminal])
  {
    var bs := [Block("abc", false, []), Block("cba", false, []), Terminal];
    assert RenderBlock(bs[0]) == "/abc" && RenderBlock(bs[1]) == "/cba" && RenderBlock(bs[2]) == "/";
    assert Render(bs[2..]) == "/" by { assert bs[2..][1..] == []; }
    assert Render(bs[1..]) == "/cba/" by { assert bs[1..][1..] == bs[2..]; }
    assert Render(bs) == "/abc/cba/";
    assert WellFormedPath(bs);
    ParseRender(bs);
  }

  /** `/abc/cba//`: a descendant marker at the very end is refused. */
  lemma UnfinishedSearchRejected()
    ensures ParsePath("/abc/cba//") == PathRejected
  {
    var t := "/abc/cba//";
    FindKeyEnd(t[1..], 3);
    assert t[1..][3..] == t[4..];
    var t3 := t[4..];
    FindKeyEnd(t3[1..], 3);
    assert t3[1..][3..] == "//";
  }

  lemma UnterminatedIndexRejected()
    ensures ParsePath("/abc[") == PathRejected
  {
    var t := "/abc[";
    FindKeyEnd(t[1..], 3);
    var u := t[1..][3..];
    assert u == "[";
    FindFirst(u[1..], ']', 0);
  }

  lemma NegativeIndexPathRejected()
    ensures ParsePath("/abc[-1]") == PathRejected
  {
    var t := "/abc[-1]";
    FindKeyEnd(t[1..], 3);
    var u := t[1..][3..];
    assert u == "[" + "-1" + "]" + "";
    ScanIndexOf(u, "-1", "");
    NegativeIndexRejected("1");
    assert "-" + "1" == "-1";
  }

  lemma EmptyPropertyNameRejected()
    ensures ParsePath("/abc{=b}") == PathRejected
  {
    var t := "/abc{=b}";
    FindKeyEnd(t[1..], 3);
    var u := t[1..][3..];
    assert u == "{" + "=b" + "}" + "";
    ScanPropertyOf(u, "=b", "");
    FindFirst("=b", '=', 0);
    assert Split("=b", '=')[0] == [];
  }

  /** `{foo=}`: a property with an `=` and an empty value still compares against the empty text. */
  lemma EmptyValueAccepted()
    ensures ParsePath("/abc{foo=}") == Parsed([Block("abc", false, [Property("foo", true, "")])])
  {
    var f := Property("foo", true, "");
    var b := Block("abc", false, [f]);
    assert RenderFilter(f) == "{foo=}";
    assert RenderFilters([f]) == "{foo=}";
    assert RenderBlock(b) == "/abc{foo=}";
    assert WellFormedBlock(b);
    ParseOneBlock(b);
  }

  /** Filters are kept in the order written. */
  lemma MixedFiltersAccepted()
    ensures ParsePath("/{a}[1]{b}") == Parsed([Block("", false, [Property("a", false, ""), Index(1), Property("b", false, "")])])
  {
    var fs := [Property("a", false, ""), Index(1), Property("b", false, "")];
    var b := Block("", false, fs);
    assert DecimalString(1) == "1";
    assert RenderFilter(fs[0]) == "{a}" && RenderFilter(fs[1]) == "[1]" && RenderFilter(fs[2]) == "{b}";
    assert RenderFilters(fs[2..]) == "{b}" by { assert fs[2..][1..] == []; }
    assert RenderFilters(fs[1..]) == "[1]{b}" by { assert fs[1..][1..] == fs[2..]; }
    assert RenderFilters(fs) == "{a}[1]{b}";
    assert RenderBlock(b) == "/{a}[1]{b}";
    assert WellFormedFilters(fs) by {
      assert WellFormedFilter(fs[0]) && WellFormedFilter(fs[1]) && WellFormedFilter(fs[2]);
    }
    ParseOneBlock(b);
  }

  /** A character after a filter that is not `[`, `{` or `/` makes parse loop for ever; the corrected parse rejects it. */
  lemma TextAfterFilterNeverReturns()
    ensures ParsePath("/a[0]b") == PathDiverges
    ensures ParsePathFixed("/a[0]b") == PathRejected
  {
    var t := "/a[0]b";
    FindKeyEnd(t[1..], 1);
    var u := t[1..][1..];
    assert u == "[" + "0" + "]" + "b";
    ScanIndexOf(u, "0", "b");
    ToIntDecimal(0);
    assert DecimalString(0) == "0";
    assert Round(u) == Scanned([Index(0)], "b");
    assert ParseFilters("b") == FiltersDiverge;
    assert ParseFilters(u) == FiltersDiverge;
    assert t[1..][..1] == "a";
    assert KeyAndFilters(t[1..], false) == BlockDiverges;
    assert ParseBlock(t) == BlockDiverges;
  }
}
