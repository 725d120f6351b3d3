/**
 * The path language of src/qmlpath.cpp as pure functions: the parsed
 * representation (blocks and filters) and the grammar that QmlPath::parse and
 * QmlPath::parseInternal implement. The functions here work on the remaining
 * input (a suffix of the path string); the imperative cursor scanner in module
 * PathQuery is proved to compute exactly these results.
 */
module PathSyntax {

  import opened Optional

  /** One filter of a block: `[n]` or `{name}` / `{name=value}`. */
  datatype Filter =
    | Index(index: nat)
    | Property(name: string, hasValue: bool, value: string)

  /** One component of a path: a key to match, the `//` (descendant) flag and its filters in written order. */
  datatype Block = Block(key: string, nested: bool, filters: seq<Filter>)

  /** The block appended when a `/` consumes the last character of the input. */
  const Terminal: Block := Block("", false, [])

  /** The range of the C++ `int` that holds an index. */
  const IntMin: int := -0x8000_0000
  const IntMax: int := 0x7fff_ffff

  predicate IsKeyEnd(c: char) {
    c == '/' || c == '[' || c == '{'
  }

  /** Length of the key at the head of `t`: the maximal run of characters other than `/`, `[` and `{`. */
  function KeyLength(t: string): (n: nat)
    ensures n <= |t|
    ensures forall k :: 0 <= k < n ==> !IsKeyEnd(t[k])
    ensures n == |t| || IsKeyEnd(t[n])
  {
    if t == [] || IsKeyEnd(t[0]) then 0 else 1 + KeyLength(t[1..])
  }

  /** The key length is the only position that ends a run of key characters. */
  lemma FindKeyEnd(t: string, n: nat)
    requires n <= |t|
    requires forall k :: 0 <= k < n ==> !IsKeyEnd(t[k])
    requires n == |t| || IsKeyEnd(t[n])
    ensures KeyLength(t) == n
  {
  }

  /** Position of the first `c` in `t`, or |t| when there is none. */
  function Find(t: string, c: char): (n: nat)
    ensures n <= |t|
    ensures forall k :: 0 <= k < n ==> t[k] != c
    ensures n == |t| || t[n] == c
  {
    if t == [] || t[0] == c then 0 else 1 + Find(t[1..], c)
  }

  /** Find returns the only position that ends a run without `c`. */
  lemma FindFirst(t: string, c: char, n: nat)
    requires n <= |t|
    requires forall k :: 0 <= k < n ==> t[k] != c
    requires n == |t| || t[n] == c
    ensures Find(t, c) == n
  {
  }

  /** The parts of a split list glued back together with the separator. */
  function Join(parts: seq<string>, sep: char): string
    requires |parts| >= 1
  {
    if |parts| == 1 then parts[0] else parts[0] + [sep] + Join(parts[1..], sep)
  }

  /** QString::split on one character, keeping empty parts. */
  function Split(t: string, sep: char): (parts: seq<string>)
    ensures |parts| >= 1
    ensures forall k :: 0 <= k < |parts| ==> sep !in parts[k]
    ensures Join(parts, sep) == t
    decreases |t|
  {
    var n := Find(t, sep);
    if n == |t| then
      [t]
    else
      var rest := Split(t[n + 1..], sep);
      assert t == t[..n] + [sep] + t[n + 1..];
      assert ([t[..n]] + rest)[1..] == rest;
      [t[..n]] + rest
  }

  predicate IsDigit(c: char) {
    '0' <= c <= '9'
  }

  predicate AllDigits(d: string) {
    forall k :: 0 <= k < |d| ==> IsDigit(d[k])
  }

  function DigitValue(c: char): nat
    requires IsDigit(c)
  {
    (c as int - '0' as int) as nat
  }

  function DigitChar(v: nat): (c: char)
    requires v < 10
    ensures IsDigit(c) && DigitValue(c) == v
  {
    ('0' as int + v) as char
  }

  /** The value of a string of decimal digits, most significant first. */
  function DecimalValue(d: string): nat
    requires AllDigits(d)
    decreases |d|
  {
    if d == [] then 0 else 10 * DecimalValue(d[..|d| - 1]) + DigitValue(d[|d| - 1])
  }

  /** The shortest decimal spelling of `n`; reading it back gives `n`. */
  function DecimalString(n: nat): (d: string)
    ensures |d| >= 1 && AllDigits(d)
    ensures DecimalValue(d) == n
  {
    if n < 10 then
      [DigitChar(n)]
    else
      var d := DecimalString(n / 10) + [DigitChar(n % 10)];
      assert d[..|d| - 1] == DecimalString(n / 10);
      d
  }

  /**
   * QString::toInt in base 10 as far as this model needs it: an optional sign,
   * then at least one decimal digit, and a value that fits a 32-bit int.
   */
  function ToInt(t: string): (r: Option<int>)
    ensures r.Some? ==> IntMin <= r.value <= IntMax
  {
    var signed := |t| > 0 && (t[0] == '-' || t[0] == '+');
    var digits := if signed then t[1..] else t;
    if digits == [] || !AllDigits(digits) then
      None
    else
      var v: int := if signed && t[0] == '-' then -(DecimalValue(digits) as int) else DecimalValue(digits);
      if IntMin <= v <= IntMax then Some(v) else None
  }

  /** The filter that the body of `[body]` gives, or None where parseInternal fails. */
  function IndexFilter(body: string): (r: Option<Filter>)
    ensures r.Some? ==> r.value.Index? && r.value.index <= IntMax
  {
    match ToInt(body)
    case None => None
    case Some(v) => if v < 0 then None else Some(Index(v))
  }

  /** The filter that the body of `{body}` gives, or None where parseInternal fails. */
  function PropertyFilter(body: string): (r: Option<Filter>)
    ensures r.Some? ==> r.value.Property? && |r.value.name| > 0
    ensures r.Some? ==> '=' !in r.value.name && '=' !in r.value.value
    ensures r.Some? && !r.value.hasValue ==> r.value.value == ""
  {
    var parts := Split(body, '=');
    if |parts| > 2 then None
    else if parts[0] == "" then None
    else if |parts| > 1 then Some(Property(parts[0], true, parts[1]))
    else Some(Property(parts[0], false, ""))
  }

  /** What one bracketed filter at the head of the input gives: its filters and the input after it. */
  datatype Scan = Scanned(filters: seq<Filter>, rest: string) | ScanFailed

  /** A scanned filter body followed by `rest`. */
  function ScanOf(f: Option<Filter>, rest: string): Scan
  {
    match f
    case None => ScanFailed
    case Some(f) => Scanned([f], rest)
  }

  /** `[` body `]` at the head of `u`. */
  function ScanIndex(u: string): (r: Scan)
    requires u != [] && u[0] == '['
    ensures r.Scanned? ==> |r.rest| < |u| && |r.filters| == 1 && r.filters[0].Index?
  {
    var n := Find(u[1..], ']');
    if n == |u| - 1 then ScanFailed else ScanOf(IndexFilter(u[1..n + 1]), u[n + 2..])
  }

  /** `{` body `}` at the head of `u`. */
  function ScanProperty(u: string): (r: Scan)
    requires u != [] && u[0] == '{'
    ensures r.Scanned? ==> |r.rest| < |u| && |r.filters| == 1 && r.filters[0].Property?
  {
    var n := Find(u[1..], '}');
    if n == |u| - 1 then ScanFailed else ScanOf(PropertyFilter(u[1..n + 1]), u[n + 2..])
  }

  /** Outcome of the filter loop: the filters and the input left, a syntax error, or a loop that never ends. */
  datatype FiltersResult =
    | FiltersOk(filters: seq<Filter>, rest: string)
    | FiltersRejected
    | FiltersDiverge

  /**
   * One round of the filter loop of parseInternal on an input that starts
   * with `[` or `{`: an optional `[...]`, then an optional `{...}`.
   */
  function Round(u: string): (r: Scan)
    requires |u| > 0 && (u[0] == '[' || u[0] == '{')
    ensures r.Scanned? ==> |r.rest| < |u| && |r.filters| > 0
  {
    if u[0] == '[' then
      match ScanIndex(u)
      case ScanFailed => ScanFailed
      case Scanned(fs, rest) => PropertyPart(rest, fs)
    else
      PropertyPart(u, [])
  }

  /** The `{...}` part of a round, on what the `[...]` part left, after the filters `before` it found. */
  function PropertyPart(t: string, before: seq<Filter>): (r: Scan)
    ensures r.Scanned? ==> |r.rest| <= |t| && |r.filters| >= |before|
    ensures r.Scanned? && |t| > 0 && t[0] == '{' ==> |r.rest| < |t| && |r.filters| > |before|
  {
    if |t| > 0 && t[0] == '{' then
      match ScanProperty(t)
      case ScanFailed => ScanFailed
      case Scanned(fs, rest) => Scanned(before + fs, rest)
    else
      Scanned(before, t)
  }

  /**
   * The filter loop of parseInternal. It stops at the end of the input or on
   * a `/`; a round that starts on any other character than `[` or `{`
   * consumes nothing and so repeats for ever.
   */
  function ParseFilters(u: string): (r: FiltersResult)
    ensures r.FiltersOk? ==> |r.rest| == 0 || r.rest[0] == '/'
    ensures r.FiltersOk? ==> |r.rest| <= |u|
    ensures r.FiltersOk? && |u| > 0 && u[0] != '/' ==> |r.rest| < |u| && |r.filters| > 0
    ensures r.FiltersOk? && |r.filters| == 0 ==> r.rest == u
    decreases |u|
  {
    if |u| == 0 || u[0] == '/' then
      FiltersOk([], u)
    else if u[0] != '[' && u[0] != '{' then
      FiltersDiverge
    else
      match Round(u)
      case ScanFailed => FiltersRejected
      case Scanned(fs, rest) => PrefixedFilters(fs, ParseFilters(rest))
  }

  /** Outcome of parseInternal on a non-empty input. */
  datatype BlockResult =
    | BlockOk(block: Block, rest: string)
    | BlockRejected
    | BlockDiverges

  /** The key and the filters of a block, once the separator and the descendant marker are consumed. */
  function KeyAndFilters(t2: string, nested: bool): (r: BlockResult)
    ensures r.BlockOk? ==> |r.rest| <= |t2|
    ensures r.BlockOk? && |t2| > 0 && t2[0] != '/' ==> |r.rest| < |t2|
    ensures r.BlockOk? ==> |r.rest| == 0 || r.rest[0] == '/'
  {
    var n := KeyLength(t2);
    match ParseFilters(t2[n..])
    case FiltersOk(fs, rest) => BlockOk(Block(t2[..n], nested, fs), rest)
    case FiltersRejected => BlockRejected
    case FiltersDiverge => BlockDiverges
  }

  /**
   * parseInternal: an optional separator `/`, an optional descendant marker
   * `/`, the key, then the filters. A successful block always leaves the input
   * empty or on a `/`, so the separator check that parse makes afterwards never
   * fails.
   */
  function ParseBlock(t: string): (r: BlockResult)
    requires |t| > 0
    ensures r.BlockOk? ==> |r.rest| < |t|
    ensures r.BlockOk? ==> |r.rest| == 0 || r.rest[0] == '/'
  {
    if t[0] == '/' && |t| == 1 then
      BlockOk(Terminal, [])
    else
      var j := if t[0] == '/' then 1 else 0;
      if t[j] == '/' && |t| == j + 1 then
        BlockRejected
      else if t[j] == '/' then
        KeyAndFilters(t[j + 1..], true)
      else
        KeyAndFilters(t[j..], false)
  }

  /** Outcome of parse: the blocks, a syntax error, or a parse that never returns. */
  datatype PathResult =
    | Parsed(blocks: seq<Block>)
    | PathRejected
    | PathDiverges

  /** The loop of parse over a non-empty remaining input. */
  function ParseBlocks(t: string): (r: PathResult)
    requires |t| > 0
    ensures r.Parsed? ==> 0 < |r.blocks| <= |t|
    decreases |t|
  {
    match ParseBlock(t)
    case BlockRejected => PathRejected
    case BlockDiverges => PathDiverges
    case BlockOk(b, rest) =>
      if |rest| == 0 then Parsed([b]) else Prefixed([b], ParseBlocks(rest))
  }

  /** QmlPath::parse: the empty string is rejected, anything else goes through the block loop. */
  function ParsePath(s: string): (r: PathResult)
    ensures r.Parsed? ==> 0 < |r.blocks| <= |s|
  {
    if |s| == 0 then PathRejected else ParseBlocks(s)
  }

  /**
   * The parse the filter loop evidently intends: where the source loops for
   * ever on a character after a filter that is not `[`, `{` or `/`, the input
   * is rejected instead. It always answers, and accepts the same inputs with
   * the same blocks as the source.
   */
  function ParsePathFixed(s: string): (r: PathResult)
    ensures !r.PathDiverges?
    ensures r.Parsed? <==> ParsePath(s).Parsed?
    ensures r.Parsed? ==> r.blocks == ParsePath(s).blocks
  {
    match ParsePath(s)
    case PathDiverges => PathRejected
    case other => other
  }

  /** A parse outcome with `done` put in front of the blocks it yields. */
  function Prefixed(done: seq<Block>, r: PathResult): PathResult
  {
    match r
    case Parsed(bs) => Parsed(done + bs)
    case PathRejected => PathRejected
    case PathDiverges => PathDiverges
  }

  /** A filter-loop outcome with `done` put in front of the filters it yields. */
  function PrefixedFilters(done: seq<Filter>, r: FiltersResult): FiltersResult
  {
    match r
    case FiltersOk(fs, rest) => FiltersOk(done + fs, rest)
    case FiltersRejected => FiltersRejected
    case FiltersDiverge => FiltersDiverge
  }
}
