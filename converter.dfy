/**
 * The `HTMLConverter` object: a document and the blocks selected from it
 * once, in the constructor. Its methods follow the statements of the
 * source; each is proved to compute the corresponding function of module
 * Convert, so everything proved there holds of the object.
 */
module Converter {
  import opened Results
  import opened JsString
  import opened Hast
  import opened Values
  import opened Convert
  import opened ConvertProperties

  /** What `getJson` gives for a document: a function of the document (and `JSON.parse`) alone. */
  function DocumentJson(doc: Document, parse: string -> Option<Value>, fuel: nat): (r: Outcome<Value>)
  {
    Json(doc, SelectBlocks(doc), parse, fuel)
  }

  class HTMLConverter {
    const htmlDocument: Document
    const blocks: seq<Element>

    /** The blocks are the elements `main > div > div` of the document. */
    predicate Valid()
    {
      blocks == SelectBlocks(htmlDocument)
    }

    constructor(htmlDocument: Document)
      ensures this.htmlDocument == htmlDocument
      ensures blocks == SelectBlocks(htmlDocument)
      ensures Valid()
    {
      this.htmlDocument := htmlDocument;
      this.blocks := SelectBlocks(htmlDocument);
    }

    /**
     * `getProperties(block)`: the rows are visited in order and each
     * element row stores its value under its key in `rdx`, replacing an
     * earlier value; text and comment rows are passed over.
     */
    method GetProperties(block: Element, fuel: nat) returns (r: Outcome<Props>)
      ensures r == Properties(blocks, block, fuel)
    {
      var rows := block.children;
      var rdx: Props := map[];
      var i := 0;
      while i < |rows|
        invariant 0 <= i <= |rows|
        invariant RowsFold(blocks, rows[..i], fuel) == Ok(rdx)
      {
        var row := rows[i];
        assert rows[..i + 1] == rows[..i] + [row];
        RowsFoldSnoc(blocks, rows[..i], row, fuel);
        if row.El? {
          var elementChildren := ElementChildren(row.el);
          if |elementChildren| < 2 {
            RowsFoldErrorPersists(blocks, rows, i + 1, fuel);
            return Err(MissingColumn);
          }
          var keyCol, valCol := elementChildren[0], elementChildren[1];
          var key := Trim(ToString(keyCol));
          var value := ValueOf(valCol, fuel);
          if value.Err? {
            RowsFoldErrorPersists(blocks, rows, i + 1, fuel);
            return Err(value.error);
          }
          rdx := rdx[key := value.value];
        }
        i := i + 1;
      }
      assert rows[..i] == rows;
      return Ok(rdx);
    }

    /** The value a row stores: `""` for an empty column, an array for a list, else the typed text. */
    method ValueOf(valCol: Element, fuel: nat) returns (r: Outcome<Value>)
      ensures r == ColumnValue(blocks, valCol, fuel)
    {
      var listElement := FirstList(valCol);
      if valCol.children == [] {
        r := Ok(Str(""));
      } else if listElement.Some? {
        var items := ArrayValues(blocks, ListItems(listElement.value), fuel);
        if items.Err? {
          return Err(items.error);
        }
        r := Ok(Arr(items.value));
      } else {
        r := TypedValue(blocks, Trim(ToString(valCol)), fuel);
      }
    }

    /** `getMetadata()`: the `da-form` block with its two `x-` keys renamed. */
    method GetMetadata(fuel: nat) returns (r: Outcome<Props>)
      ensures r == Metadata(blocks, fuel)
    {
      var baseMeta := FindAndConvert(blocks, Str("da-form"), false, fuel);
      if baseMeta.Err? {
        return Err(baseMeta.error);
      }
      var base := baseMeta.value;
      var schemaName := Lookup(base, "x-schema-name");
      var storageFormat := Lookup(base, "x-storage-format");
      var rest := base - {"x-schema-name", "x-storage-format"};
      return Ok(map["schemaName" := schemaName, "storageFormat" := storageFormat] + rest);
    }

    /** `convertBlocksToJson()`: `{metadata, data}`. */
    method ConvertBlocksToJson(fuel: nat) returns (r: Outcome<Value>)
      ensures r == BlocksToJson(blocks, fuel)
    {
      var metadata := GetMetadata(fuel);
      if metadata.Err? {
        return Err(metadata.error);
      }
      var data := FindAndConvert(blocks, Lookup(metadata.value, "schemaName"), false, fuel);
      if data.Err? {
        return Err(data.error);
      }
      return Ok(Obj(map["metadata" := Obj(metadata.value), "data" := Obj(data.value)]));
    }

    /**
     * `getJson()`: with storage format `"code"`, the parsed first
     * `pre > code` (`{}` when the page has none); otherwise the converted
     * blocks. The result depends on the document alone.
     */
    method GetJson(parse: string -> Option<Value>, fuel: nat) returns (r: Outcome<Value>)
      requires Valid()
      ensures r == Json(htmlDocument, blocks, parse, fuel)
      ensures r == DocumentJson(htmlDocument, parse, fuel)
    {
      var metadata := GetMetadata(fuel);
      if metadata.Err? {
        return Err(metadata.error);
      }
      var json := Obj(map[]);
      if Lookup(metadata.value, "storageFormat") == Str("code") {
        var code := FirstPreCode(htmlDocument);
        if code.Some? {
          var parsed := parse(ToString(code.value));
          if parsed.None? {
            return Err(InvalidJson);
          }
          json := parsed.value;
        }
      } else {
        var converted := ConvertBlocksToJson(fuel);
        if converted.Err? {
          return converted;
        }
        json := converted.value;
      }
      return Ok(json);
    }
  }
}
