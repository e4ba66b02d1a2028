# da-sc structured content: a verified Dafny model

This project models the two pieces of logic in the da-sc worker that do more
than move bytes around.

- **The HTML-to-JSON block converter** (`HTMLConverter`, src/html2json.ts).
  A document authored as a page of *blocks* becomes a JSON object. A block is
  a `div` under `main > div`. Each of its rows is a key column and a value
  column. Cell text is coerced, in a fixed order, to an empty string, a
  boolean, a `self://#` reference to another block, a number, or the text
  itself. A list in a value column becomes an array. The `da-form` block
  carries the metadata, and its schema name selects the block holding the
  data. With storage format `code`, the page's `pre > code` payload is parsed
  instead of converting the blocks.
- **The request-path parser** (`getTld`, `getCtx`, `Ctx`, src/context.ts).
  A pathname `/tier/org/site/content/path` becomes the Edge Delivery origin
  `https://main--site--org.aem.<tld>` and a content path.

## Layout

| file | module | what it holds |
|---|---|---|
| results.dfy | `Results` | `Option` and `Result` with failure propagation |
| js_string.dfy | `JsString` | the JavaScript string operations the core uses (`indexOf`, `replace`, `replaceAll` of one character, `slice(1)`, `split`, `join`, `trim`) and their laws |
| hast.dfy | `Hast` | the document tree, `hast-util-to-string`, and the five CSS selections the converter makes, as explicit functions |
| values.dfy | `Values` | JavaScript values, `getBoolean`, and `getNumber` restricted to decimal literals |
| convert.dfy | `Convert` | the converter as fuel-bounded mutually recursive functions over the block list |
| convert_fuel.dfy | `ConvertFuel` | a run that did not run out of fuel gives the same result with more fuel |
| convert_lemmas.dfy | `ConvertProperties` | what the converter promises, proved over module `Convert` |
| converter.dfy | `Converter` | the `HTMLConverter` class: fields fixed in the constructor, and methods that follow the source's statements (the row loop of `getProperties` updates a map in place), each proved to compute the matching `Convert` function |
| context.dfy | `Context` | `getTld`, `getCtx` and `Ctx` |

Reference resolution can recurse without end: `findAndConvert` calls
`getProperties`, which calls `getTypedValue`, which calls `getReference`,
which calls `findAndConvert` again. The source has no cycle check. The model
therefore gives every function of this recursion a `fuel` bound. Following a
reference uses one unit, and a run that needs more fails with `OutOfFuel`.
`ConvertFuel.JsonFuel` shows that once a run has ended without running out of
fuel, every larger bound gives the same result. The results proved for a
given fuel are therefore the results of the unbounded program wherever it
terminates.

Errors the source does not guard against become explicit errors of the model
rather than being ruled out by preconditions:

- `MissingColumn`: a row element with fewer than two element children. The
  source throws a `TypeError`: from `toString(undefined)` at line 64 when the
  row has no element child at all, and from reading `valCol.children` at
  line 65 when it has exactly one.
- `BadListItem`: a list item with no children, or whose first child is an
  element, in a list that is read. The source throws reading
  `firstChild!.value` or calling `startsWith` on `undefined`.
- `InvalidJson`: `JSON.parse` rejecting the code block.

Points where the code's behaviour may surprise; the model follows the code:

- when several blocks match a search, the last one wins;
- a `self://#` reference that matches no block gives `{}`, not the text,
  because an empty object is truthy at src/html2json.ts:140;
- a list is detected anywhere inside the value column, including the column
  itself;
- a malformed row in a block that is actually converted (matched by a
  search or by a reference) fails the whole conversion instead of being
  skipped; blocks that are never converted are never read.

## Model

| member | source | states |
|---|---|---|
| Converter.HTMLConverter.constructor | src/html2json.ts:25-28 | the document is kept, and the blocks are exactly the `main > div > div` elements selected once from it |
| Converter.HTMLConverter.GetProperties | src/html2json.ts:57-79 | the loop over the rows, which updates `rdx` in place, computes exactly `Properties`; everything `ConvertProperties.PropertiesSpec` proves therefore holds of the object's result |
| Converter.HTMLConverter.ValueOf | src/html2json.ts:65-75 | the value stored for a value column is `ColumnValue` of it |
| Converter.HTMLConverter.GetMetadata | src/html2json.ts:51-55 | the method computes `Metadata`, characterized by `ConvertProperties.MetadataSpec` |
| Converter.HTMLConverter.ConvertBlocksToJson | src/html2json.ts:30-34 | the method computes `BlocksToJson`, characterized by `ConvertProperties.BlocksToJsonSpec` |
| Converter.HTMLConverter.GetJson | src/html2json.ts:36-49 | the result is `Json` of the document and its blocks, and so a function of the document and `JSON.parse` alone (`DocumentJson`) |
| ConvertProperties.LastMatch | src/html2json.ts:87-97 | the index of the last block whose class token matches, with none after it; `None` exactly when no block matches |
| ConvertProperties.FindFoldResult | src/html2json.ts:88-96 | the `reduce` over the blocks keeps `{}` when nothing matches, and when it succeeds it ends with the properties of the last matching block |
| ConvertProperties.FindFoldOk | src/html2json.ts:88-96 | the search succeeds exactly when every matching block converts, since every match is converted |
| ConvertProperties.FindFoldError | src/html2json.ts:88-96 | a failing search fails with the error of some matching block |
| ConvertProperties.FindAndConvertSpec | src/html2json.ts:87-97 | `findAndConvert` compares class token 0, or token 1 for a reference: `{}` when no block matches, otherwise the last matching block's properties, and it fails exactly when a matching block fails |
| ConvertProperties.NoMatchingBlock | src/html2json.ts:87-97 | a search that no block matches gives `{}` |
| ConvertProperties.SearchIgnoresOtherNames | src/html2json.ts:92 | the class token is compared whole and case-sensitively, so a block with a different name is never chosen |
| ConvertProperties.RowEntryKey | src/html2json.ts:59-65 | text and comment rows add nothing; an element row with fewer than two element columns fails; any other element row adds the trimmed text of its first element column as key and `ColumnValue` of its second element column as value, or fails with that column's error |
| ConvertProperties.LastIndex | src/html2json.ts:58-78 | the last position holding a value, with none after it; `None` exactly when the value does not occur |
| ConvertProperties.LastRowWithKey | src/html2json.ts:58-78 | the last row whose key is the given key; `None` exactly when no row has that key |
| ConvertProperties.RowsFoldSpec | src/html2json.ts:58-78 | a block's properties have one key per row key, and each key's value is the one computed from the last row with that key |
| ConvertProperties.LastRowSnoc | src/html2json.ts:58-78 | the last row with a key is the final row, or else the last such row before it |
| ConvertProperties.PropertiesSpec | src/html2json.ts:57-79 | `getProperties`: a key is present exactly when some row has it, and its value comes from the last such row |
| ConvertProperties.RowsFoldSkipsText | src/html2json.ts:59 | a text or comment row leaves the properties unchanged |
| ConvertProperties.RowsFoldStep | src/html2json.ts:68-74 | a row with a key sets that key, overwriting an earlier value and leaving every other key alone |
| ConvertProperties.RowsFoldSnoc | src/html2json.ts:58-78 | one more row continues the fold from the properties of the rows before it |
| ConvertProperties.RowsFoldErrorPersists | src/html2json.ts:58-78 | the first failing prefix decides the error of the whole block |
| ConvertProperties.RowsFoldFailsOnBadRow | src/html2json.ts:63-65 | one malformed row anywhere makes the block fail; no row is skipped silently |
| ConvertProperties.ColumnValueSpec | src/html2json.ts:65-75 | an empty value column gives `""`; a column with a `ul` or `ol` anywhere inside it gives the array of that list's items; any other column gives its trimmed text, typed |
| ConvertProperties.ArrayOnlyFromList | src/html2json.ts:66-71 | a value that is an array comes only from a column holding a list |
| ConvertProperties.TypedValueNeverArray | src/html2json.ts:102-119 | typing text gives only a string, boolean, object or number |
| ConvertProperties.TypedValueOrder | src/html2json.ts:102-119 | `""` is `""`; `"true"` and `"false"` are booleans; a marker text is the referenced block's properties, found by the reference id among the variations, or fails with that search's error; any other text is its number when it is one, and otherwise the text itself |
| ConvertProperties.TypedStringIsUncoerced | src/html2json.ts:102-119 | a text typed as a string comes back unchanged, and is neither boolean, reference nor number |
| ConvertProperties.SelfRefNotNumber | src/html2json.ts:110-116 | a reference text is never a number, so trying references first loses no number |
| ConvertProperties.ReferenceSpec | src/html2json.ts:136-143 | nothing exactly when the text lacks the marker; otherwise the result, or error, of searching for the reference id by variation, and never nothing |
| ConvertProperties.UnmatchedReference | src/html2json.ts:136-143 | a reference that no block's variation names is typed as `{}` |
| ConvertProperties.RefIdOfPath | src/html2json.ts:138 | the id of `self://#path`, without a second marker, is the path with every `/` turned into `-` |
| ConvertProperties.NoMarkerWithoutHash | src/html2json.ts:138 | a path without `#` holds no second marker |
| ConvertProperties.RefIdExample | src/html2json.ts:138 | `self://#forms/offer` names the variation `forms-offer` |
| ConvertProperties.ItemValuesSpec | src/html2json.ts:129-133 | when the `map` over the items succeeds, it gives one entry per item, in order: a resolved reference for a marker text, and otherwise the raw text |
| ConvertProperties.ItemValuesOk | src/html2json.ts:129-133 | the `map` over the items succeeds exactly when every item has a first text and every reference among them resolves |
| ConvertProperties.ItemValuesFailOnBadItem | src/html2json.ts:130-131 | an item with no first text makes the list fail |
| ConvertProperties.ArrayValuesSpec | src/html2json.ts:121-134 | no items, or a single item with missing or empty text, give `[]`; a list whose items all have a first text and whose references resolve converts; every other list that converts gives one entry per item, in order, each a resolved reference or the raw text and never a number or boolean; every other list with an item lacking first text fails |
| ConvertProperties.MetadataSpec | src/html2json.ts:51-55 | the metadata is the `da-form` block with `x-schema-name` and `x-storage-format` moved to `schemaName` and `storageFormat`, the two originals dropped, and every other key passed through unchanged |
| ConvertProperties.MetadataWithoutForm | src/html2json.ts:51-55 | without a `da-form` block, schema name and storage format are undefined |
| ConvertProperties.BlocksToJsonSpec | src/html2json.ts:30-34 | `{metadata, data}` where data is the block the schema name selects; it succeeds exactly when both searches do |
| ConvertProperties.CodeFormatIgnoresBlocks | src/html2json.ts:39-43 | with storage format `code`, the result is the parsed first `pre > code` text, or `{}` without one, whatever the blocks are |
| ConvertProperties.OtherFormatConvertsBlocks | src/html2json.ts:44-46 | any other storage format converts the blocks |
| ConvertProperties.JsonNeedsMetadata | src/html2json.ts:36-37 | a failing metadata search fails the whole conversion with its error |
| ConvertFuel.FindAndConvertFuel | src/html2json.ts:87-97 | a search that settled with some fuel gives the same result with any more fuel |
| ConvertFuel.FindFoldFuel | src/html2json.ts:88-96 | the same for the fold over the blocks |
| ConvertFuel.PropertiesFuel | src/html2json.ts:57-79 | the same for `getProperties` |
| ConvertFuel.RowsFoldFuel | src/html2json.ts:58-78 | the same for the fold over the rows |
| ConvertFuel.RowEntryFuel | src/html2json.ts:59-75 | the same for one row |
| ConvertFuel.ColumnValueFuel | src/html2json.ts:65-75 | the same for a value column |
| ConvertFuel.TypedValueFuel | src/html2json.ts:102-119 | the same for `getTypedValue` |
| ConvertFuel.ArrayValuesFuel | src/html2json.ts:121-134 | the same for `getArrayValues` |
| ConvertFuel.ItemValuesFuel | src/html2json.ts:129-133 | the same for the `map` over the items |
| ConvertFuel.ReferenceFuel | src/html2json.ts:136-143 | the same for `getReference`, the one call that spends fuel |
| ConvertFuel.MetadataFuel | src/html2json.ts:51-55 | the same for `getMetadata` |
| ConvertFuel.JsonFuel | src/html2json.ts:36-49 | the same for `getJson`: enough fuel gives the one result the source computes |
| Values.GetBoolean | src/html2json.ts:145-149 | `true` exactly for `"true"`, `false` exactly for `"false"`, and nothing for every other text |
| Values.BooleanIsCaseSensitive | src/html2json.ts:145-149 | `"True"`, `"FALSE"` and `" true"` are not booleans |
| Values.NumberOf | src/html2json.ts:151-156 | a literal that is accepted consists only of digits, signs and decimal points; the lemmas below say which literals give a value and what it is |
| Values.SignedLiteral | src/html2json.ts:151-156 | a `-` in front of an unsigned literal negates its value, and a `+` leaves it unchanged |
| Values.NoDigitsNoNumber | src/html2json.ts:151-156 | a sign alone, a point alone, or a sign followed by a point is not a literal |
| Values.BareSignIsNotNumber | src/html2json.ts:151-156 | `-` and `.` give no number, as `Number` gives NaN for them |
| Values.ParseUnsigned | src/html2json.ts:151-156 | an unsigned literal that is accepted consists of digits and a point, and its value is not negative |
| Values.TrimmedNumber | src/html2json.ts:151-156 | `Number` ignores surrounding white space: a text without any reads as its own literal |
| Values.IntegerRoundTrip | src/html2json.ts:151-156 | in the exact decimal model, the plain decimal digits of every integer (with `-` when negative) read back as that integer; JavaScript's doubles keep this only up to 2^53 |
| Values.NatToDecimalValue | src/html2json.ts:151-156 | the decimal digits of a natural number have that value |
| Values.DigitsNumber | src/html2json.ts:151-156 | a string of digits reads as its value |
| Values.DecimalLiteral | src/html2json.ts:151-156 | `whole.fraction` reads as `whole + fraction / 10^|fraction|` |
| Values.UnsignedDecimal | src/html2json.ts:151-156 | the same for the unsigned literal parser |
| Values.DecimalExample | src/html2json.ts:151-156 | `"3.5"` reads as 3.5 |
| Values.LetterIsNotNumber | src/html2json.ts:151-156 | in the decimal-literal model, a text that starts with a letter is not a number |
| Values.NotNumberChar | src/html2json.ts:151-156 | in the decimal-literal model, a character other than a digit, sign or point in the trimmed text leaves no number (JavaScript also accepts `1e3` and `0x1F`) |
| Values.NonNumberExample | src/html2json.ts:151-156 | `"42abc"` is not a number |
| Hast.SelectBlocks | src/html2json.ts:27 | the blocks `main > div > div` are `div` elements |
| Hast.FirstList | src/html2json.ts:66 | `select('ul, ol')` finds a `ul` or `ol`, and finds one exactly when one is inside the column or is the column itself |
| Hast.ListItems | src/html2json.ts:71 | `selectAll('li')` gives `li` elements |
| Hast.FirstPreCode | src/html2json.ts:40 | `select('pre > code')` finds a `code` element |
| Hast.Select | src/html2json.ts:40 | `select` is the first element `selectAll` finds, and that element was visited and matches |
| Hast.SelectAllMatches | src/html2json.ts:27 | every element `selectAll` returns was visited and matches, and it returns none exactly when no visited element matches |
| Hast.SelectFound | src/html2json.ts:66 | `select` finds an element exactly when some visited element matches |
| Hast.SelectAllAppend | src/html2json.ts:27 | `selectAll` over two walks one after the other is the concatenation of the two results |
| Hast.ElementsOf | src/html2json.ts:61 | `:scope > *` keeps exactly the element children, skipping text and comments |
| Hast.ElementsOfAppend | src/html2json.ts:61-63 | the element children keep document order: those of a concatenation are the concatenation of each part's, so the key column comes before the value column |
| Hast.ToStringIsDescendantText | src/html2json.ts:64 | `toString` of an element is the concatenation of its descendant text nodes in document order |
| Hast.PageBlocks | src/html2json.ts:27 | on the page shape the converter is written for, `<main><div>…</div></main>`, the blocks are exactly the elements directly inside the inner `div`, in order |
| Hast.NoBlocksWithoutMain | src/html2json.ts:27 | no block is found in a forest without a `main` element |
| JsString.IndexOf | src/context.ts:29 | the first position at which the pattern occurs; `None` exactly when it does not occur |
| JsString.ReplaceFirstAt | src/context.ts:29 | `replace` with a string pattern removes the first occurrence only; later occurrences are kept |
| JsString.ReplaceCharOnce | src/html2json.ts:138 | `replaceAll('/', '-')` turns the one `/` into `-` and changes nothing else |
| JsString.DropFirst | src/context.ts:30 | `slice(1)` drops the first character, and of an empty string leaves it empty |
| JsString.JoinSplit | src/context.ts:31 | the pieces of `split('/')` joined with `/` give back the string |
| JsString.SplitPieces | src/context.ts:31 | no piece of a split holds the separator |
| JsString.SplitJoin | src/context.ts:31 | splitting pieces joined with the separator gives the pieces back, when none holds the separator |
| JsString.TrimIsSlice | src/html2json.ts:64 | `trim` gives a slice of the input, with only white space outside it and none at its ends |
| JsString.TrimIdempotent | src/html2json.ts:74 | trimming twice is trimming once |
| JsString.TrimUnchanged | src/html2json.ts:74 | a text with no white space at either end is its own trimmed form |
| Context.GetTld | src/context.ts:20-24 | `"preview"` maps to `"page"` and `"review"` to `"reviews"`; every other tier, the empty one included, maps to `"live"` |
| Context.Segments | src/context.ts:28-31 | there is always at least one path segment |
| Context.SegmentsRejoin | src/context.ts:28-31 | the segments hold no `/`, and joined with `/` they give the pathname without its first `.json` and its first character |
| Context.FirstJsonRemoved | src/context.ts:29 | only the first `.json` is removed, wherever it is in the path; a later one is kept |
| Context.GetCtx | src/context.ts:26-44 | fails exactly when org and site are both missing or empty, with the usage message; otherwise org and site are the second and third segments, `edsDomainUrl` is `https://main--site--org.aem.` plus the tier's host suffix, and the content path is the segments after the third joined with `/` |
| Context.OriginOf | src/context.ts:41 | the origin of a defined org and site is `"https://main--" + site + "--" + org + ".aem." + getTld(tier)` |
| Context.Rest | src/context.ts:42 | the content path is `""` with three segments or fewer, and otherwise the rest joined with `/` |
| Context.GetCtxRoundTrip | src/context.ts:28-43 | `/t/o/s/p`, with no `/` in t, o and s, a non-empty o and no `.json`, gives org `o`, site `s`, the origin built from them, and content path `p` |
| Context.NoContentPath | src/context.ts:42 | a path that ends after the site has the content path `""` |
| Context.OrgWithoutSite | src/context.ts:34-43 | a non-empty org alone is accepted; the site is then undefined, and is written so in the origin |
| Context.SiteWithoutOrg | src/context.ts:34-43 | a non-empty site alone, after an empty org segment, is accepted |
| Context.TierOnlyIsUsageError | src/context.ts:34-36 | a path with only a tier is a usage error |

## Left out

- src/index.ts (the Cloudflare worker `fetch` handler: CORS headers, method checks, the network fetch, `Response` construction), test/index.spec.ts and prepare-deploy.js (a build script) are not part of this model: they are I/O plumbing.
- HTML parsing (`unified`, `rehype-parse`) is not modelled; the model starts from the parsed tree.
- The selector engine (`hast-util-select`) is not modelled in general. Its five uses are written as functions over a document-order walk that records each element's parent and grandparent tags. A search scoped to an element (`select('ul, ol', valCol)`, `selectAll('li', list)`) also considers that element itself. `className` is a list of class tokens.
- `JSON.parse` is a parameter `parse`: a function that gives a value or `None` for a syntax error.
- Values.GetNumber: `Number(text)` followed by `Number.isFinite` is modelled only for decimal literals. These are digits with at most one decimal point and at least one digit, optionally signed, around white space, with blank text read as 0. The value is an exact `real`. Exponents, hexadecimal, binary and octal literals, `Infinity`, `-0` and floating-point rounding are not modelled.
- The recursion of reference resolution carries a fuel bound, because the source does not check for cycles. A runaway recursion, where the source overflows the stack, is `OutOfFuel` here. The `ConvertFuel` lemmas show that the bound changes nothing for runs that end.
- Object semantics: properties are a `map`. Key order, prototype keys such as `__proto__`, and JSON serialisation are not modelled.
- Strings are sequences of characters. UTF-16 code units, and surrogate pairs in particular, are not distinguished.
- `new URL(url)` is not modelled: `getCtx` takes the URL's pathname. In the source, `org` and `site` are typed as strings but may be undefined; the model uses `Option`, and an undefined value is written `undefined` in the origin.
- JsString.ReplaceFirstAt: it is stated for patterns whose first character does not recur in them, such as `.json`. This is the case `getCtx` needs, not every pattern `replace` accepts.
