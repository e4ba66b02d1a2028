/**
 * The fuel bound only cuts runs short: a conversion that did not run out
 * of fuel gives the same result, value or error, with any larger bound.
 * So the result of the source's unbounded recursion, where it ends, is the
 * result of the model for every large enough fuel.
 */
module ConvertFuel {
  import opened Results
  import opened JsString
  import opened Hast
  import opened Values
  import opened Convert

  /** The run ended with a value or with an error other than running out of fuel. */
  predicate Settled<T>(r: Outcome<T>)
  {
    r.Ok? || r.error != OutOfFuel
  }

  lemma {:induction false} FindAndConvertFuel(blocks: seq<Element>, term: Value, byVariation: bool, fuel: nat, more: nat)
    requires fuel <= more && Settled(FindAndConvert(blocks, term, byVariation, fuel))
    ensures FindAndConvert(blocks, term, byVariation, more) == FindAndConvert(blocks, term, byVariation, fuel)
    decreases fuel, 10, 0
  {
    FindFoldFuel(blocks, blocks, term, if byVariation then 1 else 0, fuel, more, map[]);
  }

  lemma {:induction false} FindFoldFuel(blocks: seq<Element>, rest: seq<Element>, term: Value, idx: nat, fuel: nat, more: nat, acc: Props)
    requires fuel <= more && Settled(FindFold(blocks, rest, term, idx, fuel, acc))
    ensures FindFold(blocks, rest, term, idx, more, acc) == FindFold(blocks, rest, term, idx, fuel, acc)
    decreases fuel, 9, |rest|
  {
    if rest != [] {
      if BlockMatches(rest[0], term, idx) {
        PropertiesFuel(blocks, rest[0], fuel, more);
        var p := Properties(blocks, rest[0], fuel);
        if p.Ok? {
          FindFoldFuel(blocks, rest[1..], term, idx, fuel, more, p.value);
        }
      } else {
        FindFoldFuel(blocks, rest[1..], term, idx, fuel, more, acc);
      }
    }
  }

  lemma {:induction false} PropertiesFuel(blocks: seq<Element>, block: Element, fuel: nat, more: nat)
    requires fuel <= more && Settled(Properties(blocks, block, fuel))
    ensures Properties(blocks, block, more) == Properties(blocks, block, fuel)
    decreases fuel, 8, 0
  {
    RowsFoldFuel(blocks, block.children, fuel, more);
  }

  lemma {:induction false} RowsFoldFuel(blocks: seq<Element>, rows: seq<Node>, fuel: nat, more: nat)
    requires fuel <= more && Settled(RowsFold(blocks, rows, fuel))
    ensures RowsFold(blocks, rows, more) == RowsFold(blocks, rows, fuel)
    decreases fuel, 7, |rows|
  {
    if rows != [] {
      var init := rows[..|rows| - 1];
      RowsFoldFuel(blocks, init, fuel, more);
      if RowsFold(blocks, init, fuel).Ok? {
        RowEntryFuel(blocks, rows[|rows| - 1], fuel, more);
      }
    }
  }

  lemma {:induction false} RowEntryFuel(blocks: seq<Element>, row: Node, fuel: nat, more: nat)
    requires fuel <= more && Settled(RowEntry(blocks, row, fuel))
    ensures RowEntry(blocks, row, more) == RowEntry(blocks, row, fuel)
    decreases fuel, 6, 0
  {
    if row.El? && |ElementChildren(row.el)| >= 2 {
      ColumnValueFuel(blocks, ElementChildren(row.el)[1], fuel, more);
    }
  }

  lemma {:induction false} ColumnValueFuel(blocks: seq<Element>, col: Element, fuel: nat, more: nat)
    requires fuel <= more && Settled(ColumnValue(blocks, col, fuel))
    ensures ColumnValue(blocks, col, more) == ColumnValue(blocks, col, fuel)
    decreases fuel, 5, 0
  {
    if col.children != [] {
      match FirstList(col)
      case Some(list) => ArrayValuesFuel(blocks, ListItems(list), fuel, more);
      case None => TypedValueFuel(blocks, Trim(ToString(col)), fuel, more);
    }
  }

  lemma {:induction false} TypedValueFuel(blocks: seq<Element>, text: string, fuel: nat, more: nat)
    requires fuel <= more && Settled(TypedValue(blocks, text, fuel))
    ensures TypedValue(blocks, text, more) == TypedValue(blocks, text, fuel)
    decreases fuel, 4, 0
  {
    if text != "" && GetBoolean(text).None? {
      ReferenceFuel(blocks, text, fuel, more);
    }
  }

  lemma {:induction false} ArrayValuesFuel(blocks: seq<Element>, items: seq<Element>, fuel: nat, more: nat)
    requires fuel <= more && Settled(ArrayValues(blocks, items, fuel))
    ensures ArrayValues(blocks, items, more) == ArrayValues(blocks, items, fuel)
    decreases fuel, 4, 0
  {
    ItemValuesFuel(blocks, items, fuel, more);
  }

  lemma {:induction false} ItemValuesFuel(blocks: seq<Element>, items: seq<Element>, fuel: nat, more: nat)
    requires fuel <= more && Settled(ItemValues(blocks, items, fuel))
    ensures ItemValues(blocks, items, more) == ItemValues(blocks, items, fuel)
    decreases fuel, 3, |items|
  {
    if items != [] {
      match FirstValue(items[0])
      case None =>
      case Some(text) =>
        ReferenceFuel(blocks, text, fuel, more);
        if Reference(blocks, text, fuel).Ok? {
          ItemValuesFuel(blocks, items[1..], fuel, more);
        }
    }
  }

  lemma {:induction false} ReferenceFuel(blocks: seq<Element>, text: string, fuel: nat, more: nat)
    requires fuel <= more && Settled(Reference(blocks, text, fuel))
    ensures Reference(blocks, text, more) == Reference(blocks, text, fuel)
    decreases fuel, 1, 0
  {
    if StartsWith(text, SelfRef) {
      FindAndConvertFuel(blocks, Str(RefId(text)), true, fuel - 1, more - 1);
    }
  }

  lemma MetadataFuel(blocks: seq<Element>, fuel: nat, more: nat)
    requires fuel <= more && Settled(Metadata(blocks, fuel))
    ensures Metadata(blocks, more) == Metadata(blocks, fuel)
  {
    FindAndConvertFuel(blocks, Str("da-form"), false, fuel, more);
  }

  /** The whole conversion: enough fuel gives the one result the source computes. */
  lemma JsonFuel(doc: Document, blocks: seq<Element>, parse: string -> Option<Value>, fuel: nat, more: nat)
    requires fuel <= more && Settled(Json(doc, blocks, parse, fuel))
    ensures Json(doc, blocks, parse, more) == Json(doc, blocks, parse, fuel)
  {
    MetadataFuel(blocks, fuel, more);
    var metadata := Metadata(blocks, fuel);
    if metadata.Ok? && Lookup(metadata.value, "storageFormat") != Str("code") {
      FindAndConvertFuel(blocks, Lookup(metadata.value, "schemaName"), false, fuel, more);
    }
  }
}
