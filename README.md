# QmlPath in Dafny

This project models `QmlPath`, the small path language that locates one item in a
Qt Quick item tree. The model covers both halves of the class in `src/qmlpath.cpp`:

- **The parser.** `QmlPath::parse` and `QmlPath::parseInternal` scan a path such as
  `/abc//def[1]{p=v}/` with a forward-only cursor. They produce a list of blocks, and
  each block holds:
  - a key;
  - a `nested` (descendant, `//`) flag;
  - its filters in written order, each `[n]` (an index) or `{name}` / `{name=value}`
    (a property).

  The list is stored in `m_blocks` only when the whole string parses.
- **The evaluator.** `QmlPath::evaluate` and `QmlPath::evaluateItems` narrow a list of
  candidate items block by block. For each block they:
  - select the candidates by name (and, for `//`, the named items below them,
    found by `findItems`);
  - apply the filters (`filterByIndex`, `filterByProperty`) in order;
  - descend into the first survivor, whose candidates for the next block are its
    collected child items (`collectChildItems`).

The Dafny files are organised as follows.

- `path_syntax.dfy` (module `PathSyntax`) is the grammar as pure functions over the
  remaining input.
  - It gives three outcomes: a parse, a rejection, or a loop that never ends
    (see Findings).
  - `ParsePathFixed` is the corrected parse.
- `path_syntax_properties.dfy` (module `PathSyntaxProperties`) holds the properties of
  the grammar.
  - It prints blocks back to text and proves the round trip
    `ParsePath(Render(bs)) == Parsed(bs)` for every well-formed block list.
  - Conversely, every parse result is well formed.
  - Filter bodies are characterised exactly.
- `item_tree.dfy` (module `ItemTree`) models the item tree and the search.
  - An item is a value `Node(name, props, children, content)`. `props` stands for
    Qt's property reflection and `content` for the `contentItem` property.
  - `CollectChildItems` and the reference walk `Descendants` are defined here.
  - `FindItems` is a recursive method with a loop, proved equal to the named items
    of `Descendants`.
- `path_evaluation.dfy` (module `PathEvaluation`) defines what evaluation yields, as
  functions, and proves their properties.
- `path_query.dfy` (module `PathQuery`) holds the class `QmlPath`, with the field
  `blocks` (`m_blocks`).
  - The methods scan with an integer cursor and evaluate with loops.
  - Each method is proved to compute the functions above.
  - `FilterByProperty` walks the list with a cursor and removes items from it, as
    the source's mutable iterator does.
- `parse_examples.dfy` and `evaluate_examples.dfy` replay rows of the test tables in
  `tests/testqmlpath.cpp`.
  - The evaluation rows are proved on a tree of the test fixture's shape: `abc` with
    `def` (holding `ghi`), and `list`, whose content item holds `artichoke`.

Behaviours of the code worth noting:

- **Property bodies.** The body is split on every `=`, and more than two parts are
  rejected (src/qmlpath.cpp:110-111). So `{a=b=c}` is a syntax error, and a value
  never contains `=`.
- **Indexes.** The body of `[...]` goes through `QString::toInt` (src/qmlpath.cpp:84-89).
  So `[+1]` and `[-0]` are accepted, and `[-1]` is rejected because the value is
  negative.
- **After a filter.** A character after a filter that is not `/`, `[` or `{` is not
  a syntax error. The filter loop never returns on it (see Findings). The separator
  check in `parse` (src/qmlpath.cpp:31) can never fail.

## Model

| member | source | states |
|---|---|---|
| PathQuery.QmlPath.Parse | src/qmlpath.cpp:12-38 | The status is the outcome of the grammar on the whole string: accepted, rejected (the empty string included) or never returning. The stored blocks become the parsed blocks only on acceptance; otherwise they keep their old value. Read with the corrected parse, acceptance is exactly "the corrected parse succeeds", and an accepted path has at least one block. |
| PathQuery.QmlPath.ParseInternal | src/qmlpath.cpp:41-130 | One block is scanned from the cursor and appended to the blocks done so far only on success. On success the cursor is left where the grammar's remaining input starts. |
| PathQuery.QmlPath.KeyAndFiltersAt | src/qmlpath.cpp:61-128 | The key and then the filter loop, from the cursor: the outcome, the block and the cursor are those of `KeyAndFilters`. |
| PathQuery.QmlPath.KeyAt | src/qmlpath.cpp:61-65 | The key is the maximal run before `/`, `[` or `{`. The cursor moves exactly that far. |
| PathQuery.QmlPath.FilterLoop | src/qmlpath.cpp:67-126 | The filter loop's outcome (filters, rejection or divergence) and the cursor are those of `ParseFilters`. |
| PathQuery.QmlPath.FilterRound | src/qmlpath.cpp:68-125 | One round, an optional `[...]` then an optional `{...}`, succeeds exactly when `Round` does. It consumes at least one character and yields `Round`'s filters. |
| PathQuery.QmlPath.PropertyPartAt | src/qmlpath.cpp:94-125 | The `{...}` part of a round. With no `{` it consumes nothing; on a `{` it consumes the whole brace filter or fails. |
| PathQuery.QmlPath.BracketBody | src/qmlpath.cpp:73-79 | The body runs from after the opening bracket up to the first closing character. The cursor stops on that character or at the end of the input. |
| PathQuery.QmlPath.IndexFilterAt | src/qmlpath.cpp:68-91 | `[body]` succeeds exactly when the closing `]` exists and the body converts to a non-negative int. The filter is `Index` of that value. |
| PathQuery.QmlPath.PropertyFilterAt | src/qmlpath.cpp:94-124 | `{body}` succeeds exactly when the closing `}` exists, the body has at most one `=`, and the name is non-empty. The filter is `Property(name, "=" present, value)`. |
| PathQuery.QmlPath.constructor | src/qmlpath.cpp:10 | A new path holds no blocks. |
| PathQuery.RootItems | src/qmlpath.cpp:141-145 | The root items are exactly the root objects that are items, and there are no more of them than objects. |
| PathQuery.RootItemsOne | src/qmlpath.cpp:142-145 | One root object gives its item when the cast to an item succeeds, and nothing otherwise. |
| PathQuery.RootItemsAppend | src/qmlpath.cpp:141-145 | The root items of two runs of objects are those of the first run followed by those of the second, so the items keep the order and the repetitions of the root objects. |
| PathQuery.QmlPath.Evaluate | src/qmlpath.cpp:132-148 | No engine or no blocks gives no item. Otherwise the result is the walk over the stored blocks from the root objects that are items, in order. |
| PathQuery.QmlPath.EvaluateItems | src/qmlpath.cpp:150-196 | The result is the walk `EvaluateBlocks` over the blocks from index `i` on. |
| PathQuery.QmlPath.MatchBlockKey | src/qmlpath.cpp:163-177 | The candidates a block's key selects: all candidates for an empty key; otherwise the named ones, then, for `//`, each candidate's search results. |
| PathQuery.QmlPath.NamedItems | src/qmlpath.cpp:166-170 | The candidates whose objectName is the key, in order. |
| PathQuery.QmlPath.SearchEach | src/qmlpath.cpp:172-176 | Each candidate's `findItems` result, concatenated in candidate order without deduplication. |
| PathQuery.QmlPath.ApplyBlockFilters | src/qmlpath.cpp:179-189 | The filters are applied one after the other in written order. |
| PathQuery.QmlPath.FilterByProperty | src/qmlpath.cpp:236-254 | Removing items in place leaves exactly `WithProperty` of the input. These are the items that have the property and, when a value is given, whose text equals it, in their original order. |
| PathSyntax.KeyLength | src/qmlpath.cpp:61-65 | The key length is maximal: no key end (`/`, `[`, `{`) occurs before it, and it stops at the end of the input or on a key end. |
| PathSyntax.Find | src/qmlpath.cpp:73-77 | The position of the first occurrence of a character, or the length when there is none. |
| PathSyntax.Split | src/qmlpath.cpp:110 | At least one part; no part contains the separator; joining the parts gives back the text. |
| PathSyntax.ToInt | src/qmlpath.cpp:88 | A successful conversion lies within the 32-bit int range. |
| PathSyntax.ScanIndex | src/qmlpath.cpp:68-91 | A scanned index filter consumes input and yields one `Index`. |
| PathSyntax.ScanProperty | src/qmlpath.cpp:94-124 | A scanned property filter consumes input and yields one `Property`. |
| PathSyntax.Round | src/qmlpath.cpp:68-125 | A round that succeeds consumes input and yields at least one filter. |
| PathSyntax.ParseFilters | src/qmlpath.cpp:67-126 | A loop that ends leaves the input empty or on a `/`. It consumes input and finds a filter whenever it did not start on a `/`. |
| PathSyntax.KeyAndFilters | src/qmlpath.cpp:61-128 | A successful block leaves the input empty or on a `/`, and consumes input when it did not start on one. |
| PathSyntax.ParseBlock | src/qmlpath.cpp:41-130 | A successful parseInternal always consumes input and leaves the cursor at the end or on a `/`, so the check at line 31 never fails. |
| PathSyntax.ParseBlocks | src/qmlpath.cpp:22-34 | A successful parse yields at least one block, and no more blocks than the input has characters. |
| PathSyntax.ParsePath | src/qmlpath.cpp:12-38 | An accepted path has at least one block and no more blocks than characters, so the empty string is never accepted. |
| PathSyntax.IndexFilter | src/qmlpath.cpp:84-89 | An accepted index body gives an `Index` filter whose value fits a 32-bit int. |
| PathSyntax.PropertyFilter | src/qmlpath.cpp:110-124 | An accepted property body gives a `Property` filter with a non-empty name. Neither the name nor the value contains `=`, and without `=` the value is empty. |
| PathSyntax.PropertyPart | src/qmlpath.cpp:94-125 | The `{...}` part of a round never grows the remaining input and never loses filters. On a `{` it consumes input and adds a filter. |
| PathSyntax.ParsePathFixed | src/qmlpath.cpp:67-126 | The corrected parse never diverges. It accepts exactly the inputs the source accepts, with the same blocks. |
| PathSyntaxProperties.PropertyFilterIff | src/qmlpath.cpp:110-124 | A property body gives the filter `f` if and only if the name is non-empty, neither name nor value contains `=`, and the body is `name=value` when `hasValue`, or just `name` with an empty value otherwise. |
| PathSyntaxProperties.IndexFilterIff | src/qmlpath.cpp:84-89 | An index body gives `Index(n)` if and only if `n` fits an int and the body is a non-empty run of decimal digits worth `n`, written bare, after `+`, or after `-` when `n` is zero. |
| PathSyntaxProperties.NegativeIndexRejected | src/qmlpath.cpp:88-89 | A minus sign before a non-zero number is rejected. |
| PathSyntaxProperties.ToIntDecimal | src/qmlpath.cpp:88 | Every index within the int range, printed in decimal, converts back to itself. |
| PathSyntaxProperties.ParseFiltersRender | src/qmlpath.cpp:67-126 | Printed well-formed filters followed by the end or a `/` are read back as the same filters, in the same order, with the same rest. |
| PathSyntaxProperties.ParseBlockRender | src/qmlpath.cpp:41-130 | A printed well-formed block is read back as the same block with the same rest. A terminal block is read back only at the end, and a bare `//` only before more input. |
| PathSyntaxProperties.ParseRender | src/qmlpath.cpp:12-38 | Round trip: every well-formed block list, printed, parses to itself. |
| PathSyntaxProperties.ParseFiltersWellFormed | src/qmlpath.cpp:67-126 | Every filter the loop produces is well formed. |
| PathSyntaxProperties.ParseBlockWellFormed | src/qmlpath.cpp:41-130 | Every block parseInternal produces is well formed. A terminal block comes only at the end of the input, and a bare `//` block never does. |
| PathSyntaxProperties.ParsedWellFormed | src/qmlpath.cpp:12-38 | Every successful parse is a well-formed block list. Together with ParseRender, the well-formed lists are exactly the parse results. |
| ItemTree.CollectChildItems | src/qmlpath.cpp:199-209 | The collected items are together strictly smaller than the item, so the recursion through content items terminates. |
| ItemTree.CollectChildItemsMember | src/qmlpath.cpp:199-209 | An item is collected if and only if it is a child of the item or of an item on its content chain. |
| ItemTree.DescendantsMember | src/qmlpath.cpp:212-223 | An item is below `n` if and only if it is collected from `n` or below an item collected from `n`. |
| ItemTree.DescendantsSmaller | src/qmlpath.cpp:212-223 | Every item below `n` is smaller than `n`, so the search never returns the item it starts from. |
| ItemTree.WithNameMember | src/qmlpath.cpp:166-170 | An item is kept by name if and only if it is a candidate whose objectName is the key. |
| ItemTree.WithNameAppend | src/qmlpath.cpp:166-170 | Selecting by name distributes over concatenation, so order is preserved. |
| ItemTree.FindItems | src/qmlpath.cpp:212-223 | findItems returns exactly the items named `key` in the pre-order walk below the item (collected children, each followed by the items below it). |
| PathEvaluation.FilterByIndex | src/qmlpath.cpp:226-233 | At most one item. There is exactly one if and only if the index is in range, and it is the item at the index. |
| PathEvaluation.FoundBelowMember | src/qmlpath.cpp:172-176 | An item is in the search results if and only if it is named `key` and lies below one of the candidates. |
| PathEvaluation.MatchKeyMember | src/qmlpath.cpp:163-177 | With a key, a block selects exactly the items named after it that are candidates or, for `//`, lie below a candidate. Every selected item's name equals the key. |
| PathEvaluation.WithProperty | src/qmlpath.cpp:236-254 | Every item a property filter keeps is a candidate that passes the filter. |
| PathEvaluation.WithPropertyMember | src/qmlpath.cpp:236-254 | An item passes a property filter if and only if it is a candidate that has the property and, when a value is given, whose text equals it. |
| PathEvaluation.WithPropertyAppend | src/qmlpath.cpp:236-254 | Property filtering distributes over concatenation, so order is preserved. |
| PathEvaluation.WithPropertyIdempotent | src/qmlpath.cpp:236-254 | Applying the same property filter twice is the same as applying it once. |
| PathEvaluation.ApplyFilterLength | src/qmlpath.cpp:179-189 | No filter ever adds candidates. |
| PathEvaluation.ApplyFilters | src/qmlpath.cpp:179-189 | A block's filters never leave more items than there were candidates. |
| PathEvaluation.ApplyFiltersSplit | src/qmlpath.cpp:179-189 | Applying the filters in two runs, split at any point, is applying them all in written order. |
| PathEvaluation.ApplyFiltersKeeps | src/qmlpath.cpp:179-189 | Every survivor of a block's filters is one of its candidates and passes every property filter of the block. |
| PathEvaluation.ApplyFiltersAfterIndex | src/qmlpath.cpp:179-189 | Once a block has an index filter, at most one candidate survives. |
| PathEvaluation.EvaluatePath | src/qmlpath.cpp:132-148 | An item is found only when the path has a block and there is a root item. When the last block has a key, the item found carries that objectName. |
| PathEvaluation.EvaluateBlocksAppend | src/qmlpath.cpp:150-196 | Walking `bs1 + bs2` is walking `bs1`, then walking `bs2` from the item reached; if no item is reached, there is none. |
| PathEvaluation.EvaluateTerminal | src/qmlpath.cpp:163-164 | A trailing `/` gives the first candidate, or nothing when there are no candidates. |
| PathEvaluation.EvaluateBlocksLast | src/qmlpath.cpp:150-196 | When the last block has a key, the item reached carries that objectName, and it passes every property filter of the last block. |
| PathEvaluation.IndexOutOfRange | src/qmlpath.cpp:179-193 | An index filter pointing past the items the earlier filters of its block left makes the walk give nothing, whatever the current item and whatever blocks follow. |
| ParseExamples.EmptyRejected | tests/testqmlpath.cpp:17 | `""` is rejected. |
| ParseExamples.RootAccepted | tests/testqmlpath.cpp:18 | `/` is one terminal block. |
| ParseExamples.SearchWithoutKeyRejected | tests/testqmlpath.cpp:19 | `//` is rejected. |
| ParseExamples.KeyAccepted | tests/testqmlpath.cpp:20 | `abc` is one block with key `abc`. |
| ParseExamples.UnfinishedSearchRejected | tests/testqmlpath.cpp:25 | `/abc/cba//` is rejected. |
| ParseExamples.TrailingSlashAccepted | tests/testqmlpath.cpp:26 | `/abc/cba/` is `abc`, `cba` and a terminal block. |
| ParseExamples.UnterminatedIndexRejected | tests/testqmlpath.cpp:29 | `/abc[` is rejected. |
| ParseExamples.NegativeIndexPathRejected | tests/testqmlpath.cpp:34 | `/abc[-1]` is rejected. |
| ParseExamples.EmptyPropertyNameRejected | tests/testqmlpath.cpp:41 | `/abc{=b}` is rejected. |
| ParseExamples.EmptyValueAccepted | tests/testqmlpath.cpp:43 | `/abc{foo=}` has a property filter with a value, and the value is empty. |
| ParseExamples.MixedFiltersAccepted | tests/testqmlpath.cpp:53 | `/{a}[1]{b}` is one block with an empty key and the three filters in written order. |
| ParseExamples.TextAfterFilterNeverReturns | src/qmlpath.cpp:67-126 | On `/a[0]b` the source's parse never returns, and the corrected parse rejects it. |
| EvaluateExamples.RootSelected | tests/testqmlpath.cpp:76-77 | `/` gives the root `abc`. |
| EvaluateExamples.FirstChildSelected | tests/testqmlpath.cpp:83-85 | `/abc/` gives `def`, the first child. |
| EvaluateExamples.NestedNestedSelected | tests/testqmlpath.cpp:89-91 | `/abc/def/ghi` gives `ghi`. |
| EvaluateExamples.InvalidNestedRejected | tests/testqmlpath.cpp:92-94 | `/abc/invalid` gives nothing. |
| EvaluateExamples.ContentItemSelected | tests/testqmlpath.cpp:133-135 | `/abc/list/artichoke` reaches `artichoke` through the list's content item. |
| EvaluateExamples.SearchThroughContent | tests/testqmlpath.cpp:136-138 | `//artichoke` finds `artichoke` below the content item, on every tree of the fixture's shape. |
| EvaluateExamples.SearchThenFirstChild | tests/testqmlpath.cpp:106-108 | `//def/` gives `ghi`. |
| EvaluateExamples.SearchThenNoChild | tests/testqmlpath.cpp:109-111 | `//ghi/` gives nothing, because `ghi` has no children. |
| EvaluateExamples.SearchKeepsDuplicates | src/qmlpath.cpp:166-176 | A `//` block does not remove duplicates: an item that is a candidate and also lies below another candidate is selected twice. |
| EvaluateExamples.RootOutOfRange | tests/testqmlpath.cpp:146-147 | `/[1]` on one root gives nothing. |
| EvaluateExamples.PropertyValueMatches | tests/testqmlpath.cpp:178-180 | `/abc{pBool=true}` gives `abc`. |
| EvaluateExamples.PropertyValueDiffers | tests/testqmlpath.cpp:181-183 | `/abc{pBool=false}` gives nothing. |
| EvaluateExamples.IndexThenProperty | tests/testqmlpath.cpp:191-193 | With two same-named items where only the second has `p1=B`, `[1]{p1=B}` gives the second. |
| EvaluateExamples.PropertyThenIndex | tests/testqmlpath.cpp:197-199 | With the same two items, `{p1=B}[0]` gives the second. |
| EvaluateExamples.IndexFirstFindsNothing | src/qmlpath.cpp:179-189 | With the same two items, `[0]{p1=B}` gives nothing: the index narrows the list before the property filter runs. |

## Left out

- The Qt engine is reduced to a list of root objects, each either an item or some other object. This stands for `QQmlApplicationEngine::rootObjects` and the `qobject_cast<QQuickItem*>` test (src/qmlpath.cpp:142-145).
- Qt property reflection is a map from property names to their text. `QVariant::isValid` becomes key presence and `QVariant::toString` the stored text. The `contentItem` property is the optional `content` field.
- Items are values, so the model has no pointer identity and no aliasing, and the item tree cannot have cycles. Nodes are compared structurally.
- `QObject` parent ownership and the `QmlPath(QObject*)` constructor's parent argument are left out.
- PathSyntax.ToInt: accepts an optional sign, then one or more decimal digits, within the 32-bit range. Leading and trailing whitespace, which `QString::toInt` also tolerates, is not modelled.
- The `toLocal8Bit` conversion of property names is the identity here, because strings are sequences of characters.
- The read of `*input` after a closing `]` at the very end of the input relies on the string's terminating null (src/qmlpath.cpp:94). It is modelled as a bounds-checked "not `{`", which is what the null character gives.
- A parse that never returns cannot be observed from Dafny. PathQuery.QmlPath.Parse: stops and reports the status `Diverges` where the source would loop for ever, leaving the blocks untouched.
- parseInternal's pointer and size passed by reference become an integer cursor, and the block list it appends to (src/qmlpath.cpp:41-42, 50, 128) becomes the `done` argument of `ParseInternal` and a returned list. Its inner loops become helper methods (`KeyAt`, `FilterLoop`, `FilterRound`, `PropertyPartAt`, `BracketBody`, `IndexFilterAt`, `PropertyFilterAt`).
- filterByProperty's list passed by reference becomes an argument and a returned list (`FilterByProperty`).
- evaluateItems' name matching and filter loop become helper methods (`MatchBlockKey`, `NamedItems`, `SearchEach`, `ApplyBlockFilters`).
- The QML fixture `qrc:a.qml` is not part of this model. The evaluation rows are proved on a tree of the shape the row names imply. The `rangeA`, `rangeB`, `apple`, `filterA` and `filters` rows need fixture items that cannot be seen. The `filterA` ordering rows are proved for any two same-named items of which only the second passes the filter.

## Findings

| source | as written | input that shows it | evidently intended | confidence | as-written member | corrected member |
|---|---|---|---|---|---|---|
| src/qmlpath.cpp:67-126 | After a filter, the filter loop has no branch for a character other than `/`, `[` or `{`. It neither consumes that character nor returns, so the loop repeats for ever. | `/a[0]b` (also `/abc{a}x`) | reject the path as a syntax error, as the caller's false return allows | not executed | ParseExamples.TextAfterFilterNeverReturns | PathSyntax.ParsePathFixed |
