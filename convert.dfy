/**
 * The HTML-to-JSON block converter (`HTMLConverter` in src/html2json.ts)
 * as functions over the converter's block list.
 *
 * A block is a `div` two levels under `main`; its child rows are `div`s
 * whose first two element children are a key column and a value column.
 * Cell text is coerced to a boolean, a reference to another block, a
 * number or a string, and a list in a value column becomes an array.
 *
 * Reference resolution (`getReference` calling `findAndConvert`) is not
 * checked for cycles in the source. Every function here therefore takes a
 * `fuel` bound: each reference that is followed uses one unit, and a run
 * that needs more than it was given ends in `OutOfFuel`. The lemmas in
 * ConvertFuel show that a run that did not run out of fuel gives the same
 * result with any larger bound.
 */
module Convert {
  import opened Results
  import opened JsString
  import opened Hast
  import opened Values

  /** The ways a conversion ends without a value. */
  datatype ConvertError =
    | MissingColumn  // a row element with fewer than two element children (a TypeError in the source)
    | BadListItem    // a list item with no children, or an element first, in a list that is read
    | InvalidJson    // `JSON.parse` rejects the text of the code block
    | OutOfFuel      // references nested deeper than the fuel bound

  type Outcome<T> = Result<T, ConvertError>

  /** What `getProperties` builds from one block: row keys to values. */
  type Props = map<string, Value>

  /** The marker that starts a reference to another block. */
  const SelfRef := "self://#"

  /** `className[idx]`, undefined when the element has fewer class tokens. */
  function ClassToken(b: Element, idx: nat): Option<string>
  {
    if idx < |b.classes| then Some(b.classes[idx]) else None
  }

  /** `token === term`: a class token is a string or undefined, so nothing else can equal it. */
  predicate TokenMatches(token: Option<string>, term: Value)
  {
    match token
    case Some(t) => term == Str(t)
    case None => term == Undefined
  }

  /** The block matches the search term on class token `idx`. */
  predicate BlockMatches(b: Element, term: Value, idx: nat)
  {
    TokenMatches(ClassToken(b, idx), term)
  }

  /** The reference target named by `text`: what follows the marker, up to a second marker, with `/` turned into `-`. */
  function RefId(text: string): string
    requires StartsWith(text, SelfRef)
  {
    var after := text[|SelfRef|..];
    var piece := match IndexOf(after, SelfRef)
      case Some(i) => after[..i]
      case None => after;
    ReplaceChar(piece, '/', '-')
  }

  /** The first child of a list item, read as `firstChild.value`: text and comments have one, elements do not. */
  function FirstValue(li: Element): Option<string>
  {
    if li.children == [] then None
    else match li.children[0]
      case Text(v) => Some(v)
      case Comment(v) => Some(v)
      case El(_) => None
  }

  /** The key of a row: the trimmed text of its first element child, when it has two. */
  function RowKey(row: Node): Option<string>
  {
    match row
    case El(r) =>
      var cols := ElementChildren(r);
      if |cols| >= 2 then Some(Trim(ToString(cols[0]))) else None
    case _ => None
  }

  // ---------------------------------------------------------------------------
  // The mutually recursive core. The decreases clauses rank the functions
  // in call order; only `Reference` spends fuel.
  // ---------------------------------------------------------------------------

  /**
   * `findAndConvert(searchTerm, searchRef)`: the properties of the last
   * block whose class token 0 (token 1 when `byVariation`) equals the term,
   * or `{}` when none does.
   */
  function FindAndConvert(blocks: seq<Element>, term: Value, byVariation: bool, fuel: nat): Outcome<Props>
    decreases fuel, 10, 0
  {
    FindFold(blocks, blocks, term, if byVariation then 1 else 0, fuel, map[])
  }

  /** The `reduce` over the blocks: a matching block replaces the accumulator by its properties. */
  function FindFold(blocks: seq<Element>, rest: seq<Element>, term: Value, idx: nat, fuel: nat, acc: Props): Outcome<Props>
    decreases fuel, 9, |rest|
  {
    if rest == [] then Ok(acc)
    else if BlockMatches(rest[0], term, idx) then
      var props :- Properties(blocks, rest[0], fuel);
      FindFold(blocks, rest[1..], term, idx, fuel, props)
    else FindFold(blocks, rest[1..], term, idx, fuel, acc)
  }

  /** `getProperties(block)` */
  function Properties(blocks: seq<Element>, block: Element, fuel: nat): Outcome<Props>
    decreases fuel, 8, 0
  {
    RowsFold(blocks, block.children, fuel)
  }

  /** The `reduce` over the rows, as the properties of a prefix followed by one more row. */
  function RowsFold(blocks: seq<Element>, rows: seq<Node>, fuel: nat): Outcome<Props>
    decreases fuel, 7, |rows|
  {
    if rows == [] then Ok(map[])
    else
      var rdx :- RowsFold(blocks, rows[..|rows| - 1], fuel);
      var entry :- RowEntry(blocks, rows[|rows| - 1], fuel);
      match entry
      case None => Ok(rdx)
      case Some((key, value)) => Ok(rdx[key := value])
  }

  /** What one row adds: nothing for a text or comment node, otherwise its key and value. */
  function RowEntry(blocks: seq<Element>, row: Node, fuel: nat): Outcome<Option<(string, Value)>>
    decreases fuel, 6, 0
  {
    match row
    case El(r) =>
      var cols := ElementChildren(r);
      if |cols| < 2 then Err(MissingColumn)
      else
        var value :- ColumnValue(blocks, cols[1], fuel);
        Ok(Some((Trim(ToString(cols[0])), value)))
    case _ => Ok(None)
  }

  /** The value column: `""` when it is empty, an array when it holds a list, else the typed text. */
  function ColumnValue(blocks: seq<Element>, col: Element, fuel: nat): Outcome<Value>
    decreases fuel, 5, 0
  {
    if col.children == [] then Ok(Str(""))
    else match FirstList(col)
      case Some(list) =>
        var items :- ArrayValues(blocks, ListItems(list), fuel);
        Ok(Arr(items))
      case None => TypedValue(blocks, Trim(ToString(col)), fuel)
  }

  /** `getTypedValue`: empty, then boolean, then reference, then number, then the text itself. */
  function TypedValue(blocks: seq<Element>, text: string, fuel: nat): Outcome<Value>
    decreases fuel, 4, 0
  {
    if text == "" then Ok(Str(""))
    else match GetBoolean(text)
      case Some(b) => Ok(Bool(b))
      case None =>
        var reference :- Reference(blocks, text, fuel);
        match reference
        case Some(props) => Ok(Obj(props))
        case None =>
          match GetNumber(text)
          case Some(n) => Ok(Num(n))
          case None => Ok(Str(text))
  }

  /** `getArrayValues`: no items, or one item with no text, give `[]`; otherwise one entry per item. */
  function ArrayValues(blocks: seq<Element>, items: seq<Element>, fuel: nat): Outcome<seq<Value>>
    decreases fuel, 4, 0
  {
    if items == [] then Ok([])
    else if |items| == 1 && (FirstValue(items[0]) == None || FirstValue(items[0]) == Some("")) then Ok([])
    else ItemValues(blocks, items, fuel)
  }

  /** The `map` over the list items: a reference, or else the raw text of the first child. */
  function ItemValues(blocks: seq<Element>, items: seq<Element>, fuel: nat): Outcome<seq<Value>>
    decreases fuel, 3, |items|
  {
    if items == [] then Ok([])
    else
      var first :- match FirstValue(items[0])
        case None => Err(BadListItem)
        case Some(text) =>
          var reference :- Reference(blocks, text, fuel);
          Ok(if reference.Some? then Obj(reference.value) else Str(text));
      var rest :- ItemValues(blocks, items[1..], fuel);
      Ok([first] + rest)
  }

  /** `getReference`: no reference unless the text starts with the marker; else the target's properties. */
  function Reference(blocks: seq<Element>, text: string, fuel: nat): Outcome<Option<Props>>
    decreases fuel, 1, 0
  {
    if !StartsWith(text, SelfRef) then Ok(None)
    else if fuel == 0 then Err(OutOfFuel)
    else
      var props :- FindAndConvert(blocks, Str(RefId(text)), true, fuel - 1);
      Ok(Some(props))
  }

  // ---------------------------------------------------------------------------
  // Assembling the result
  // ---------------------------------------------------------------------------

  /** Reading a key of an object: undefined when it is missing. */
  function Lookup(m: Props, key: string): Value
  {
    if key in m then m[key] else Undefined
  }

  /**
   * `getMetadata`: the `da-form` block, with `x-schema-name` moved to
   * `schemaName` and `x-storage-format` to `storageFormat`. The block's
   * other rows are spread after the two, so a row named `schemaName` or
   * `storageFormat` would win.
   */
  function Metadata(blocks: seq<Element>, fuel: nat): Outcome<Props>
  {
    var base :- FindAndConvert(blocks, Str("da-form"), false, fuel);
    Ok(map["schemaName" := Lookup(base, "x-schema-name"), "storageFormat" := Lookup(base, "x-storage-format")]
       + (base - {"x-schema-name", "x-storage-format"}))
  }

  /** `convertBlocksToJson`: `{metadata, data}` where data is the block named by `schemaName`. */
  function BlocksToJson(blocks: seq<Element>, fuel: nat): Outcome<Value>
  {
    var metadata :- Metadata(blocks, fuel);
    var data :- FindAndConvert(blocks, Lookup(metadata, "schemaName"), false, fuel);
    Ok(Obj(map["metadata" := Obj(metadata), "data" := Obj(data)]))
  }

  /**
   * `getJson`: with storage format `"code"`, the parsed text of the first
   * `pre > code` element (`{}` when there is none); otherwise the blocks
   * converted. `parse` stands for `JSON.parse`, `None` for a syntax error.
   */
  function Json(doc: Document, blocks: seq<Element>, parse: string -> Option<Value>, fuel: nat): Outcome<Value>
  {
    var metadata :- Metadata(blocks, fuel);
    if Lookup(metadata, "storageFormat") == Str("code") then
      match FirstPreCode(doc)
      case None => Ok(Obj(map[]))
      case Some(code) =>
        match parse(ToString(code))
        case None => Err(InvalidJson)
        case Some(v) => Ok(v)
    else BlocksToJson(blocks, fuel)
  }
}
