/**
 * What the converter promises, stated over the functions of module Convert:
 * which block a search finds, what a block's rows become, how cell text is
 * typed, what a list becomes, what a reference resolves to, and how the
 * metadata and the final JSON are assembled.
 */
module ConvertProperties {
  import opened Results
  import opened JsString
  import opened Hast
  import opened Values
  import opened Convert

  // ---------------------------------------------------------------------------
  // findAndConvert: the last matching block wins
  // ---------------------------------------------------------------------------

  /** The index of the last block that matches on class token `idx`. */
  function LastMatch(bs: seq<Element>, term: Value, idx: nat): (r: Option<nat>)
    ensures r.Some? ==> r.value < |bs| && BlockMatches(bs[r.value], term, idx)
    ensures r.Some? ==> forall j :: r.value < j < |bs| ==> !BlockMatches(bs[j], term, idx)
    ensures r.None? <==> forall j :: 0 <= j < |bs| ==> !BlockMatches(bs[j], term, idx)
  {
    if bs == [] then None
    else match LastMatch(bs[1..], term, idx)
      case Some(i) => Some(i + 1)
      case None => if BlockMatches(bs[0], term, idx) then Some(0) else None
  }

  /**
   * The fold over the blocks keeps the accumulator when nothing matches,
   * and ends with the properties of the last matching block when it
   * succeeds.
   */
  lemma {:induction false} FindFoldResult(blocks: seq<Element>, rest: seq<Element>, term: Value, idx: nat, fuel: nat, acc: Props)
    ensures var r := FindFold(blocks, rest, term, idx, fuel, acc);
      match LastMatch(rest, term, idx)
      case None => r == Ok(acc)
      case Some(i) => r.Ok? ==> r == Properties(blocks, rest[i], fuel)
    decreases |rest|
  {
    if rest != [] {
      var tail := rest[1..];
      var p := Properties(blocks, rest[0], fuel);
      if !BlockMatches(rest[0], term, idx) || p.Ok? {
        var next := if BlockMatches(rest[0], term, idx) then p.value else acc;
        assert FindFold(blocks, rest, term, idx, fuel, acc) == FindFold(blocks, tail, term, idx, fuel, next);
        FindFoldResult(blocks, tail, term, idx, fuel, next);
        match LastMatch(tail, term, idx)
        case Some(i) => assert rest[i + 1] == tail[i];
        case None =>
      }
    }
  }

  /** The fold succeeds exactly when every matching block converts. */
  lemma {:induction false} FindFoldOk(blocks: seq<Element>, rest: seq<Element>, term: Value, idx: nat, fuel: nat, acc: Props)
    ensures FindFold(blocks, rest, term, idx, fuel, acc).Ok? <==>
      forall j :: 0 <= j < |rest| && BlockMatches(rest[j], term, idx) ==> Properties(blocks, rest[j], fuel).Ok?
    decreases |rest|
  {
    if rest != [] {
      var tail := rest[1..];
      assert forall j :: 0 <= j < |tail| ==> tail[j] == rest[j + 1];
      var p := Properties(blocks, rest[0], fuel);
      var next := if BlockMatches(rest[0], term, idx) && p.Ok? then p.value else acc;
      FindFoldOk(blocks, tail, term, idx, fuel, next);
    }
  }

  /** A failing fold fails with the error of one of the matching blocks. */
  lemma {:induction false} FindFoldError(blocks: seq<Element>, rest: seq<Element>, term: Value, idx: nat, fuel: nat, acc: Props)
    requires FindFold(blocks, rest, term, idx, fuel, acc).Err?
    ensures exists j :: (0 <= j < |rest| && BlockMatches(rest[j], term, idx)
      && Properties(blocks, rest[j], fuel) == FindFold(blocks, rest, term, idx, fuel, acc))
    decreases |rest|
  {
    var tail := rest[1..];
    var p := Properties(blocks, rest[0], fuel);
    if BlockMatches(rest[0], term, idx) && p.Err? {
      assert Properties(blocks, rest[0], fuel) == FindFold(blocks, rest, term, idx, fuel, acc);
    } else {
      var next := if BlockMatches(rest[0], term, idx) then p.value else acc;
      FindFoldError(blocks, tail, term, idx, fuel, next);
      var j :| 0 <= j < |tail| && BlockMatches(tail[j], term, idx) && Properties(blocks, tail[j], fuel) == FindFold(blocks, tail, term, idx, fuel, next);
      assert rest[j + 1] == tail[j];
    }
  }

  /**
   * `findAndConvert`: `{}` when no block matches; otherwise, when it
   * succeeds, the properties of the LAST matching block. Every matching
   * block is converted, so it fails exactly with the error of a matching
   * block that does not convert.
   */
  lemma FindAndConvertSpec(blocks: seq<Element>, term: Value, byVariation: bool, fuel: nat)
    ensures var idx := if byVariation then 1 else 0;
      var r := FindAndConvert(blocks, term, byVariation, fuel);
      && (LastMatch(blocks, term, idx).None? ==> r == Ok(map[]))
      && (LastMatch(blocks, term, idx).Some? && r.Ok? ==> r == Properties(blocks, blocks[LastMatch(blocks, term, idx).value], fuel))
      && ((forall j :: 0 <= j < |blocks| && BlockMatches(blocks[j], term, idx) ==> Properties(blocks, blocks[j], fuel).Ok?) <==> r.Ok?)
      && (r.Err? ==> exists j :: 0 <= j < |blocks| && BlockMatches(blocks[j], term, idx) && Properties(blocks, blocks[j], fuel) == r)
  {
    var idx := if byVariation then 1 else 0;
    FindFoldResult(blocks, blocks, term, idx, fuel, map[]);
    FindFoldOk(blocks, blocks, term, idx, fuel, map[]);
    if FindAndConvert(blocks, term, byVariation, fuel).Err? {
      FindFoldError(blocks, blocks, term, idx, fuel, map[]);
    }
  }

  /** When no block matches the search, `findAndConvert` gives the empty object. */
  lemma NoMatchingBlock(blocks: seq<Element>, term: Value, byVariation: bool, fuel: nat)
    requires forall b <- blocks :: !BlockMatches(b, term, if byVariation then 1 else 0)
    ensures FindAndConvert(blocks, term, byVariation, fuel) == Ok(map[])
  {
    var idx := if byVariation then 1 else 0;
    FindFoldResult(blocks, blocks, term, idx, fuel, map[]);
    assert LastMatch(blocks, term, idx).None? by {
      forall j | 0 <= j < |blocks| ensures !BlockMatches(blocks[j], term, idx) {
        assert blocks[j] in blocks;
      }
    }
  }

  /** The block class is compared whole and case-sensitively: a block named differently is never chosen. */
  lemma SearchIgnoresOtherNames(blocks: seq<Element>, name: string, fuel: nat)
    requires forall b <- blocks :: ClassToken(b, 0) != Some(name)
    ensures FindAndConvert(blocks, Str(name), false, fuel) == Ok(map[])
  {
    NoMatchingBlock(blocks, Str(name), false, fuel);
  }

  // ---------------------------------------------------------------------------
  // getProperties: the rows of a block
  // ---------------------------------------------------------------------------

  /** What a row adds is exactly keyed by `RowKey`: text and comment rows add nothing. */
  lemma RowEntryKey(blocks: seq<Element>, row: Node, fuel: nat)
    ensures RowEntry(blocks, row, fuel) == Ok(None) ==> RowKey(row) == None && !row.El?
    ensures RowEntry(blocks, row, fuel).Ok? && RowEntry(blocks, row, fuel).value.Some? ==>
      RowKey(row) == Some(RowEntry(blocks, row, fuel).value.value.0)
    ensures !row.El? ==> RowEntry(blocks, row, fuel) == Ok(None)
    ensures row.El? && |ElementChildren(row.el)| < 2 ==> RowEntry(blocks, row, fuel) == Err(MissingColumn)
    ensures row.El? && |ElementChildren(row.el)| >= 2 ==>
      var cols := ElementChildren(row.el);
      RowEntry(blocks, row, fuel) ==
        match ColumnValue(blocks, cols[1], fuel)
        case Ok(v) => Ok(Some((Trim(ToString(cols[0])), v)))
        case Err(e) => Err(e)
  {
  }

  /** The keys of the rows, in order (`None` for a text, comment or malformed row). */
  function RowKeys(rows: seq<Node>): seq<Option<string>>
  {
    seq(|rows|, i requires 0 <= i < |rows| => RowKey(rows[i]))
  }

  /** The index of the last occurrence of `k` in `ks`. */
  function LastIndex<K(==)>(ks: seq<K>, k: K): (r: Option<nat>)
    ensures r.Some? ==> r.value < |ks| && ks[r.value] == k
    ensures r.Some? ==> forall j :: r.value < j < |ks| ==> ks[j] != k
    ensures r.None? <==> k !in ks
  {
    if ks == [] then None
    else if ks[|ks| - 1] == k then Some(|ks| - 1)
    else LastIndex(ks[..|ks| - 1], k)
  }

  /** The index of the last row whose key is `key`. */
  function LastRowWithKey(rows: seq<Node>, key: string): (r: Option<nat>)
    ensures r.Some? ==> r.value < |rows| && RowKey(rows[r.value]) == Some(key)
    ensures r.Some? ==> forall j :: r.value < j < |rows| ==> RowKey(rows[j]) != Some(key)
    ensures r.None? <==> forall j :: 0 <= j < |rows| ==> RowKey(rows[j]) != Some(key)
  {
    var keys := RowKeys(rows);
    assert |keys| == |rows| && forall j :: 0 <= j < |rows| ==> keys[j] == RowKey(rows[j]);
    assert (forall j :: 0 <= j < |rows| ==> RowKey(rows[j]) != Some(key)) <==> Some(key) !in keys by {
      if Some(key) in keys {
        var j :| 0 <= j < |keys| && keys[j] == Some(key);
        assert RowKey(rows[j]) == Some(key);
      }
    }
    LastIndex(keys, Some(key))
  }

  /**
   * The properties of a block: one key per distinct row key, and each
   * key's value is the one computed from the LAST row with that key.
   */
  lemma {:induction false} RowsFoldSpec(blocks: seq<Element>, rows: seq<Node>, fuel: nat)
    requires RowsFold(blocks, rows, fuel).Ok?
    ensures var m := RowsFold(blocks, rows, fuel).value;
      forall key :: key in m <==> LastRowWithKey(rows, key).Some?
    ensures var m := RowsFold(blocks, rows, fuel).value;
      forall key :: key in m ==> RowEntry(blocks, rows[LastRowWithKey(rows, key).value], fuel) == Ok(Some((key, m[key])))
    decreases |rows|
  {
    if rows != [] {
      var n := |rows| - 1;
      var init, last := rows[..n], rows[n];
      assert init + [last] == rows;
      RowsFoldSnoc(blocks, init, last, fuel);
      RowsFoldSpec(blocks, init, fuel);
      RowEntryKey(blocks, last, fuel);
      var m := RowsFold(blocks, rows, fuel).value;
      forall key
        ensures key in m <==> LastRowWithKey(rows, key).Some?
        ensures key in m ==> RowEntry(blocks, rows[LastRowWithKey(rows, key).value], fuel) == Ok(Some((key, m[key])))
      {
        LastRowSnoc(rows, key);
        var j := LastRowWithKey(init, key);
        if RowKey(last) != Some(key) && j.Some? {
          assert rows[j.value] == init[j.value];
        }
      }
    }
  }

  /** The last row with a key is the final row, or else the last such row before it. */
  lemma LastRowSnoc(rows: seq<Node>, key: string)
    requires rows != []
    ensures LastRowWithKey(rows, key) ==
      if RowKey(rows[|rows| - 1]) == Some(key) then Some(|rows| - 1) else LastRowWithKey(rows[..|rows| - 1], key)
  {
    var n := |rows| - 1;
    assert RowKeys(rows[..n]) == RowKeys(rows)[..n];
  }

  /** `getProperties` in one statement: keys from the rows, values from the last row with each key. */
  lemma PropertiesSpec(blocks: seq<Element>, block: Element, fuel: nat)
    requires Properties(blocks, block, fuel).Ok?
    ensures var m := Properties(blocks, block, fuel).value;
      forall key :: key in m <==> exists i :: 0 <= i < |block.children| && RowKey(block.children[i]) == Some(key)
    ensures var m := Properties(blocks, block, fuel).value;
      forall key :: key in m ==> exists i :: (
        && 0 <= i < |block.children| && RowKey(block.children[i]) == Some(key)
        && RowEntry(blocks, block.children[i], fuel) == Ok(Some((key, m[key])))
        && forall j :: i < j < |block.children| ==> RowKey(block.children[j]) != Some(key))
  {
    var rows := block.children;
    RowsFoldSpec(blocks, rows, fuel);
    var m := Properties(blocks, block, fuel).value;
    forall key ensures key in m <==> exists i :: 0 <= i < |rows| && RowKey(rows[i]) == Some(key) {
      if key in m {
        assert RowKey(rows[LastRowWithKey(rows, key).value]) == Some(key);
      }
    }
  }

  /** Text and comment rows between the block's rows are skipped. */
  lemma RowsFoldSkipsText(blocks: seq<Element>, rows: seq<Node>, row: Node, fuel: nat)
    requires !row.El?
    ensures RowsFold(blocks, rows + [row], fuel) == RowsFold(blocks, rows, fuel)
  {
    RowsFoldSnoc(blocks, rows, row, fuel);
  }

  /** A row with a key sets that key, overwriting an earlier row's value and leaving the other keys alone. */
  lemma RowsFoldStep(blocks: seq<Element>, rows: seq<Node>, row: Node, fuel: nat, m: Props, key: string, value: Value)
    requires RowsFold(blocks, rows, fuel) == Ok(m)
    requires RowEntry(blocks, row, fuel) == Ok(Some((key, value)))
    ensures RowsFold(blocks, rows + [row], fuel) == Ok(m[key := value])
  {
    RowsFoldSnoc(blocks, rows, row, fuel);
  }

  /** One row more: the fold continues from the properties of the rows before it. */
  lemma RowsFoldSnoc(blocks: seq<Element>, rows: seq<Node>, row: Node, fuel: nat)
    ensures RowsFold(blocks, rows + [row], fuel) ==
      match RowsFold(blocks, rows, fuel)
      case Err(e) => Err(e)
      case Ok(m) =>
        match RowEntry(blocks, row, fuel)
        case Err(e) => Err(e)
        case Ok(None) => Ok(m)
        case Ok(Some((key, value))) => Ok(m[key := value])
  {
    assert (rows + [row])[..|rows|] == rows;
  }

  /** The first row that fails decides the error of the whole block: later rows are never reached. */
  lemma {:induction false} RowsFoldErrorPersists(blocks: seq<Element>, rows: seq<Node>, j: nat, fuel: nat)
    requires j <= |rows| && RowsFold(blocks, rows[..j], fuel).Err?
    ensures RowsFold(blocks, rows, fuel) == RowsFold(blocks, rows[..j], fuel)
    decreases |rows|
  {
    if j < |rows| {
      var init := rows[..|rows| - 1];
      assert init[..j] == rows[..j];
      RowsFoldErrorPersists(blocks, init, j, fuel);
    } else {
      assert rows[..j] == rows;
    }
  }

  /** A malformed row anywhere in a block makes the whole block fail: nothing is skipped silently. */
  lemma {:induction false} RowsFoldFailsOnBadRow(blocks: seq<Element>, rows: seq<Node>, fuel: nat, i: nat)
    requires i < |rows| && RowEntry(blocks, rows[i], fuel).Err?
    ensures RowsFold(blocks, rows, fuel).Err?
    decreases |rows|
  {
    var n := |rows| - 1;
    var init := rows[..n];
    if i < n {
      assert init[i] == rows[i];
      RowsFoldFailsOnBadRow(blocks, init, fuel, i);
      assert RowsFold(blocks, init, fuel).Err?;
    } else {
      assert rows[n] == rows[i];
    }
  }

  // ---------------------------------------------------------------------------
  // The value column and getTypedValue
  // ---------------------------------------------------------------------------

  /**
   * The value column: an empty column is `""`; a column with a `ul` or
   * `ol` anywhere inside it (or being one) is an array of that list's
   * items; any other column is its trimmed text, typed.
   */
  lemma ColumnValueSpec(blocks: seq<Element>, col: Element, fuel: nat)
    ensures col.children == [] ==> ColumnValue(blocks, col, fuel) == Ok(Str(""))
    ensures col.children != [] && (exists v <- Scope(col) :: Matches(ListSel, v)) ==>
      match ColumnValue(blocks, col, fuel)
      case Ok(v) => v.Arr? && Ok(v.items) == ArrayValues(blocks, ListItems(FirstList(col).value), fuel)
      case Err(e) => ArrayValues(blocks, ListItems(FirstList(col).value), fuel) == Err(e)
    ensures col.children != [] && (forall v <- Scope(col) :: !Matches(ListSel, v)) ==>
      ColumnValue(blocks, col, fuel) == TypedValue(blocks, Trim(ToString(col)), fuel)
  {
  }

  /** A column whose value is an array is one that holds a list. */
  lemma ArrayOnlyFromList(blocks: seq<Element>, col: Element, fuel: nat)
    requires ColumnValue(blocks, col, fuel).Ok? && ColumnValue(blocks, col, fuel).value.Arr?
    ensures col.children != [] && exists v <- Scope(col) :: Matches(ListSel, v)
  {
    if FirstList(col).None? {
      TypedValueNeverArray(blocks, Trim(ToString(col)), fuel);
    }
  }

  /** Typing text never gives an array, null or undefined. */
  lemma TypedValueNeverArray(blocks: seq<Element>, text: string, fuel: nat)
    ensures TypedValue(blocks, text, fuel).Ok? ==> var v := TypedValue(blocks, text, fuel).value;
      v.Str? || v.Bool? || v.Obj? || v.Num?
  {
  }

  /**
   * `getTypedValue` tries, in order: empty text, the two booleans, a
   * reference (the referenced block's properties, or its error), a number,
   * and keeps the text otherwise.
   */
  lemma TypedValueOrder(blocks: seq<Element>, text: string, fuel: nat)
    ensures text == "" ==> TypedValue(blocks, text, fuel) == Ok(Str(""))
    ensures text == "true" ==> TypedValue(blocks, text, fuel) == Ok(Bool(true))
    ensures text == "false" ==> TypedValue(blocks, text, fuel) == Ok(Bool(false))
    ensures StartsWith(text, SelfRef) && TypedValue(blocks, text, fuel).Ok? ==>
      TypedValue(blocks, text, fuel).value.Obj?
    ensures StartsWith(text, SelfRef) && fuel > 0 ==>
      TypedValue(blocks, text, fuel) ==
        match FindAndConvert(blocks, Str(RefId(text)), true, fuel - 1)
        case Ok(p) => Ok(Obj(p))
        case Err(e) => Err(e)
    ensures StartsWith(text, SelfRef) && fuel == 0 ==> TypedValue(blocks, text, fuel) == Err(OutOfFuel)
    ensures text != "" && GetBoolean(text).None? && !StartsWith(text, SelfRef) ==>
      TypedValue(blocks, text, fuel) == Ok(if GetNumber(text).Some? then Num(GetNumber(text).value) else Str(text))
  {
    if text == "true" || text == "false" {
      assert !StartsWith(text, SelfRef) by {
        assert text[0] != SelfRef[0];
      }
    }
    if StartsWith(text, SelfRef) {
      assert text != "" && GetBoolean(text).None? by {
        assert text[0] == 's';
      }
    }
  }

  /** A cell typed as a string is its own text, and is none of the other kinds. */
  lemma TypedStringIsUncoerced(blocks: seq<Element>, text: string, fuel: nat, s: string)
    requires TypedValue(blocks, text, fuel) == Ok(Str(s))
    ensures s == text
    ensures text != "" ==> GetBoolean(text).None? && !StartsWith(text, SelfRef) && GetNumber(text).None?
  {
    TypedValueOrder(blocks, text, fuel);
  }

  /** A reference is never read as a number, so trying references first loses no number. */
  lemma SelfRefNotNumber(text: string)
    requires StartsWith(text, SelfRef)
    ensures GetNumber(text) == None
  {
    assert text[0] == SelfRef[0] == 's';
    LetterIsNotNumber(text);
  }

  // ---------------------------------------------------------------------------
  // getReference
  // ---------------------------------------------------------------------------

  /**
   * `getReference`: nothing unless the text starts with the marker; with
   * the marker, the properties of the block whose variation (class token
   * 1) is the reference id, so never nothing.
   */
  lemma ReferenceSpec(blocks: seq<Element>, text: string, fuel: nat)
    ensures !StartsWith(text, SelfRef) <==> Reference(blocks, text, fuel) == Ok(None)
    ensures StartsWith(text, SelfRef) && fuel > 0 ==>
      match FindAndConvert(blocks, Str(RefId(text)), true, fuel - 1)
      case Ok(props) => Reference(blocks, text, fuel) == Ok(Some(props))
      case Err(e) => Reference(blocks, text, fuel) == Err(e)
  {
  }

  /** A reference that no block's variation names resolves to an empty object. */
  lemma UnmatchedReference(blocks: seq<Element>, text: string, fuel: nat)
    requires StartsWith(text, SelfRef) && fuel > 0
    requires forall b <- blocks :: ClassToken(b, 1) != Some(RefId(text))
    ensures TypedValue(blocks, text, fuel) == Ok(Obj(map[]))
  {
    var id := RefId(text);
    assert Reference(blocks, text, fuel) == Ok(Some(map[])) by {
      NoMatchingBlock(blocks, Str(id), true, fuel - 1);
    }
    assert text != "" && GetBoolean(text).None? by {
      assert text[0] == 's';
    }
  }

  /** The reference id of a path without a second marker is the path with `/` turned into `-`. */
  lemma RefIdOfPath(path: string)
    requires !Contains(path, SelfRef)
    ensures StartsWith(SelfRef + path, SelfRef)
    ensures RefId(SelfRef + path) == ReplaceChar(path, '/', '-')
  {
    var text := SelfRef + path;
    assert text[..|SelfRef|] == SelfRef;
    assert text[|SelfRef|..] == path;
  }

  /** The marker ends in `#`, so a path without `#` holds no second marker. */
  lemma NoMarkerWithoutHash(path: string)
    requires '#' !in path
    ensures !Contains(path, SelfRef)
  {
    forall k | 0 <= k <= |path| ensures !OccursAt(path, SelfRef, k) {
      if k + |SelfRef| <= |path| {
        assert path[k + 7] in path;
        assert path[k..k + |SelfRef|][7] != SelfRef[7];
      }
    }
  }

  /** `self://#forms/offer` names the block with variation `forms-offer`. */
  lemma RefIdExample()
    ensures RefId(SelfRef + "forms/offer") == "forms-offer"
  {
    assert '#' !in "forms/offer";
    NoMarkerWithoutHash("forms/offer");
    RefIdOfPath("forms/offer");
    SlashToDash();
  }

  lemma SlashToDash()
    ensures ReplaceChar("forms/offer", '/', '-') == "forms-offer"
  {
    assert "forms/offer" == "forms" + ['/'] + "offer";
    assert "forms-offer" == "forms" + ['-'] + "offer";
    ReplaceCharOnce("forms", "offer", '/', '-');
  }

  // ---------------------------------------------------------------------------
  // getArrayValues
  // ---------------------------------------------------------------------------

  /**
   * The items of a list, when they convert: one entry per item, each a
   * resolved reference when the item's first text starts with the marker
   * and that text itself otherwise (never a number or boolean).
   */
  lemma {:induction false} ItemValuesSpec(blocks: seq<Element>, items: seq<Element>, fuel: nat)
    requires ItemValues(blocks, items, fuel).Ok?
    ensures var vs := ItemValues(blocks, items, fuel).value;
      |vs| == |items| && forall i :: 0 <= i < |items| ==> ItemSpec(blocks, items[i], fuel, vs[i])
    decreases |items|
  {
    if items != [] {
      ItemValuesSpec(blocks, items[1..], fuel);
      var vs := ItemValues(blocks, items, fuel).value;
      var rest := ItemValues(blocks, items[1..], fuel).value;
      assert vs[1..] == rest;
      forall i | 0 <= i < |items| ensures ItemSpec(blocks, items[i], fuel, vs[i]) {
        if i > 0 {
          assert items[i] == items[1..][i - 1];
          assert vs[i] == rest[i - 1];
        }
      }
    }
  }

  /** What one list item becomes. */
  predicate ItemSpec(blocks: seq<Element>, li: Element, fuel: nat, v: Value)
  {
    FirstValue(li).Some? &&
    var text := FirstValue(li).value;
    if StartsWith(text, SelfRef) then v.Obj? && Reference(blocks, text, fuel) == Ok(Some(v.props))
    else v == Str(text)
  }

  /** The items convert exactly when each has a first text whose reference, if any, resolves. */
  lemma {:induction false} ItemValuesOk(blocks: seq<Element>, items: seq<Element>, fuel: nat)
    ensures ItemValues(blocks, items, fuel).Ok? <==> forall i :: 0 <= i < |items| ==>
      FirstValue(items[i]).Some? && Reference(blocks, FirstValue(items[i]).value, fuel).Ok?
    decreases |items|
  {
    if ItemValues(blocks, items, fuel).Ok? {
      ItemValuesSpec(blocks, items, fuel);
      var vs := ItemValues(blocks, items, fuel).value;
      forall i | 0 <= i < |items|
        ensures FirstValue(items[i]).Some? && Reference(blocks, FirstValue(items[i]).value, fuel).Ok?
      {
        assert ItemSpec(blocks, items[i], fuel, vs[i]);
      }
    } else if items != [] {
      ItemValuesOk(blocks, items[1..], fuel);
      if FirstValue(items[0]).Some? && Reference(blocks, FirstValue(items[0]).value, fuel).Ok? {
        assert ItemValues(blocks, items[1..], fuel).Err?;
        var j :| 0 <= j < |items[1..]| &&
          !(FirstValue(items[1..][j]).Some? && Reference(blocks, FirstValue(items[1..][j]).value, fuel).Ok?);
        assert items[1..][j] == items[j + 1];
      }
    }
  }

  /** An item with no first text (no children, or an element first) makes the list fail. */
  lemma {:induction false} ItemValuesFailOnBadItem(blocks: seq<Element>, items: seq<Element>, fuel: nat, i: nat)
    requires i < |items| && FirstValue(items[i]).None?
    ensures ItemValues(blocks, items, fuel).Err?
    decreases |items|
  {
    if i > 0 {
      assert items[1..][i - 1] == items[i];
      ItemValuesFailOnBadItem(blocks, items[1..], fuel, i - 1);
    }
  }

  /** The list is empty, or its single item has missing or empty text. */
  predicate EmptyList(items: seq<Element>)
  {
    items == [] || (|items| == 1 && FirstValue(items[0]) in {None, Some("")})
  }

  /**
   * `getArrayValues`: no items, or a single item with no text, give `[]`;
   * otherwise one entry per item as `ItemSpec` describes, and an item with
   * no first text makes the whole list fail.
   */
  lemma ArrayValuesSpec(blocks: seq<Element>, items: seq<Element>, fuel: nat)
    ensures EmptyList(items) ==> ArrayValues(blocks, items, fuel) == Ok([])
    ensures !EmptyList(items) && ArrayValues(blocks, items, fuel).Ok? ==>
      var vs := ArrayValues(blocks, items, fuel).value;
      |vs| == |items| && forall i :: 0 <= i < |items| ==> ItemSpec(blocks, items[i], fuel, vs[i])
    ensures !EmptyList(items) && (exists i :: 0 <= i < |items| && FirstValue(items[i]).None?) ==>
      ArrayValues(blocks, items, fuel).Err?
    ensures (forall i :: 0 <= i < |items| ==>
        FirstValue(items[i]).Some? && Reference(blocks, FirstValue(items[i]).value, fuel).Ok?) ==>
      ArrayValues(blocks, items, fuel).Ok?
  {
    if forall i :: 0 <= i < |items| ==>
        FirstValue(items[i]).Some? && Reference(blocks, FirstValue(items[i]).value, fuel).Ok? {
      ItemValuesOk(blocks, items, fuel);
    }
    if !EmptyList(items) {
      if ArrayValues(blocks, items, fuel).Ok? {
        ItemValuesSpec(blocks, items, fuel);
      }
      if i :| 0 <= i < |items| && FirstValue(items[i]).None? {
        ItemValuesFailOnBadItem(blocks, items, fuel, i);
      }
    }
  }

  // ---------------------------------------------------------------------------
  // getMetadata, convertBlocksToJson, getJson
  // ---------------------------------------------------------------------------

  /**
   * The metadata is the `da-form` block with the two `x-` keys renamed:
   * it succeeds exactly when that search does, lacks both `x-` keys, holds
   * every other key of the block unchanged, and the renamed values unless
   * the block has its own `schemaName` or `storageFormat` row.
   */
  lemma MetadataSpec(blocks: seq<Element>, fuel: nat)
    ensures Metadata(blocks, fuel).Ok? <==> FindAndConvert(blocks, Str("da-form"), false, fuel).Ok?
    ensures Metadata(blocks, fuel).Ok? ==>
      var base := FindAndConvert(blocks, Str("da-form"), false, fuel).value;
      var md := Metadata(blocks, fuel).value;
      && md.Keys == {"schemaName", "storageFormat"} + (base.Keys - {"x-schema-name", "x-storage-format"})
      && ("schemaName" !in base ==> md["schemaName"] == Lookup(base, "x-schema-name"))
      && ("storageFormat" !in base ==> md["storageFormat"] == Lookup(base, "x-storage-format"))
      && (forall k :: k in base && k != "x-schema-name" && k != "x-storage-format" ==> md[k] == base[k])
  {
  }

  /** With no `da-form` block the metadata names no schema and no format. */
  lemma MetadataWithoutForm(blocks: seq<Element>, fuel: nat)
    requires forall b <- blocks :: ClassToken(b, 0) != Some("da-form")
    ensures Metadata(blocks, fuel) == Ok(map["schemaName" := Undefined, "storageFormat" := Undefined])
  {
    SearchIgnoresOtherNames(blocks, "da-form", fuel);
    var empty: Props := map[];
    assert FindAndConvert(blocks, Str("da-form"), false, fuel) == Ok(empty);
    assert Lookup(empty, "x-schema-name") == Undefined && Lookup(empty, "x-storage-format") == Undefined;
    assert empty - {"x-schema-name", "x-storage-format"} == empty;
    var md: Props := map["schemaName" := Undefined, "storageFormat" := Undefined];
    assert md + empty == md;
  }

  /** `convertBlocksToJson`: the metadata and the properties of the block the schema name selects. */
  lemma BlocksToJsonSpec(blocks: seq<Element>, fuel: nat)
    ensures BlocksToJson(blocks, fuel).Ok? <==>
      Metadata(blocks, fuel).Ok? && FindAndConvert(blocks, Lookup(Metadata(blocks, fuel).value, "schemaName"), false, fuel).Ok?
    ensures BlocksToJson(blocks, fuel).Ok? ==>
      var md := Metadata(blocks, fuel).value;
      BlocksToJson(blocks, fuel).value == Obj(map[
        "metadata" := Obj(md),
        "data" := Obj(FindAndConvert(blocks, Lookup(md, "schemaName"), false, fuel).value)])
  {
  }

  /**
   * With storage format `"code"` the blocks are not converted at all: the
   * result depends only on the document's first `pre > code` and `parse`,
   * so two block lists with the same metadata give the same result.
   */
  lemma CodeFormatIgnoresBlocks(doc: Document, blocks: seq<Element>, other: seq<Element>, parse: string -> Option<Value>, fuel: nat, otherFuel: nat)
    requires Metadata(blocks, fuel).Ok? && Metadata(blocks, fuel) == Metadata(other, otherFuel)
    requires Lookup(Metadata(blocks, fuel).value, "storageFormat") == Str("code")
    ensures Json(doc, blocks, parse, fuel) == Json(doc, other, parse, otherFuel)
    ensures FirstPreCode(doc).None? ==> Json(doc, blocks, parse, fuel) == Ok(Obj(map[]))
    ensures FirstPreCode(doc).Some? ==>
      Json(doc, blocks, parse, fuel) == (if parse(ToString(FirstPreCode(doc).value)).Some?
        then Ok(parse(ToString(FirstPreCode(doc).value)).value) else Err(InvalidJson))
  {
  }

  /** Any other storage format (or none) converts the blocks. */
  lemma OtherFormatConvertsBlocks(doc: Document, blocks: seq<Element>, parse: string -> Option<Value>, fuel: nat)
    requires Metadata(blocks, fuel).Ok?
    requires Lookup(Metadata(blocks, fuel).value, "storageFormat") != Str("code")
    ensures Json(doc, blocks, parse, fuel) == BlocksToJson(blocks, fuel)
  {
  }

  /** A failing metadata search fails the whole conversion with the same error. */
  lemma JsonNeedsMetadata(doc: Document, blocks: seq<Element>, parse: string -> Option<Value>, fuel: nat)
    requires Metadata(blocks, fuel).Err?
    ensures Json(doc, blocks, parse, fuel) == Err(Metadata(blocks, fuel).error)
  {
  }
}
