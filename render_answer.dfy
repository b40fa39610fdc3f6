/**
 * The assistant page's answer renderer: it takes the `answer` field of a
 * query response, whatever its shape, and chooses one of five displays by a
 * chain of guards tried in order: falsy, not an array, empty array, first
 * element not of type "object", and otherwise a table. A TypeError raised
 * while building a display escapes the renderer; `Thrown` records it.
 */
module RenderAnswer {
  import opened JsValue
  import opened JsObject
  import opened JsString

  datatype Display =
    | NoData                                         // "No data available"
    | Single(text: string)                           // one block holding String(answer)
    | NoResults                                      // "No results found"
    | Blocks(items: seq<string>)                     // one block per element
    | Table(header: seq<string>, rows: seq<seq<string>>)
    | Thrown(error: TypeError)                       // rendering threw

  /** `values.map(v => String(v))`, throwing at the first value that throws. */
  function StringAll(vs: seq<Json>, fmt: NumberFormat): (r: Result<seq<string>>)
    ensures r.Ok? <==> forall i | 0 <= i < |vs| :: ToStr(vs[i], fmt).Ok?
    ensures r.Ok? ==> |r.value| == |vs| && forall i | 0 <= i < |vs| :: ToStr(vs[i], fmt) == Ok(r.value[i])
    ensures r.Throw? ==> r.error == CannotConvertToPrimitive
  {
    if vs == [] then Ok([])
    else
      match ToStr(vs[0], fmt)
      case Throw(e) => Throw(e)
      case Ok(s) =>
        match StringAll(vs[1..], fmt)
        case Throw(e) => Throw(e)
        case Ok(ss) =>
          assert forall i | 1 <= i < |vs| :: vs[i] == vs[1..][i - 1];
          Ok([s] + ss)
  }

  /** One table row: `Object.values(row).map(v => String(v))`. */
  function RowCells(row: Json, fmt: NumberFormat): Result<seq<string>>
  {
    match ObjectValues(row)
    case Throw(e) => Throw(e)
    case Ok(vs) => StringAll(vs, fmt)
  }

  /** `tableData.map(row => ...)`: every row's cells, in order, throwing at
      the first row that throws. */
  function TableRows(rows: seq<Json>, fmt: NumberFormat): (r: Result<seq<seq<string>>>)
    ensures r.Ok? <==> forall i | 0 <= i < |rows| :: RowCells(rows[i], fmt).Ok?
    ensures r.Ok? ==> |r.value| == |rows| && forall i | 0 <= i < |rows| :: RowCells(rows[i], fmt) == Ok(r.value[i])
  {
    if rows == [] then Ok([])
    else
      match RowCells(rows[0], fmt)
      case Throw(e) => Throw(e)
      case Ok(cells) =>
        assert forall i | 1 <= i < |rows| :: rows[i] == rows[1..][i - 1];
        match TableRows(rows[1..], fmt)
        case Throw(e) => Throw(e)
        case Ok(rest) => Ok([cells] + rest)
  }

  /** The error that escapes is the one of the first row that throws. */
  lemma {:induction false} TableRowsFirstFailure(rows: seq<Json>, fmt: NumberFormat, k: nat)
    requires k < |rows| && RowCells(rows[k], fmt).Throw?
    requires forall j | 0 <= j < k :: RowCells(rows[j], fmt).Ok?
    ensures TableRows(rows, fmt) == Throw(RowCells(rows[k], fmt).error)
  {
    if k > 0 {
      assert forall j | 0 <= j < k - 1 :: rows[1..][j] == rows[j + 1];
      TableRowsFirstFailure(rows[1..], fmt, k - 1);
    }
  }

  /** renderAnswer(answer); `fmt` is how String formats a number. */
  function Render(answer: Option<Json>, fmt: NumberFormat): Display
  {
    if !PresentAndTruthy(answer) then NoData
    else
      var v := answer.value;
      if !v.JArr? then
        match ToStr(v, fmt)
        case Ok(s) => Single(s)
        case Throw(e) => Thrown(e)
      else if |v.elems| == 0 then NoResults
      else if TypeOf(v.elems[0]) != "object" then
        match StringAll(v.elems, fmt)
        case Ok(items) => Blocks(items)
        case Throw(e) => Thrown(e)
      else
        match ObjectKeys(v.elems[0])
        case Throw(e) => Thrown(e)
        case Ok(header) =>
          match TableRows(v.elems, fmt)
          case Throw(e) => Thrown(e)
          case Ok(rows) => Table(header, rows)
  }

  /** "No data available" is shown for the missing answer and the four falsy
      JSON values, and for nothing else. */
  lemma NoDataIffFalsy(answer: Option<Json>, fmt: NumberFormat)
    ensures Render(answer, fmt) == NoData <==>
      answer in {None, Some(JNull), Some(JBool(false)), Some(JNum(0.0)), Some(JStr(""))}
  {
    FalsyValues(answer);
  }

  /** A truthy value that is not an array is shown as one block holding
      String(answer); an object is shown as "[object Object]" rather than
      as a table, unless its conversion throws. */
  lemma NonArrayIsSingleBlock(v: Json, fmt: NumberFormat)
    requires Truthy(v) && !v.JArr?
    ensures HidesToString(v) ==> Render(Some(v), fmt) == Thrown(CannotConvertToPrimitive)
    ensures !HidesToString(v) ==> Render(Some(v), fmt) == Single(ToStr(v, fmt).value)
    ensures v.JStr? ==> Render(Some(v), fmt) == Single(v.s)
    ensures v.JBool? ==> Render(Some(v), fmt) == Single("true")
    ensures v.JNum? ==> Render(Some(v), fmt) == Single(fmt(v.n))
    ensures v.JObj? && "toString" !in KeysOf(v.members) ==> Render(Some(v), fmt) == Single("[object Object]")
  {
    ToStrThrowsIff(v, fmt);
  }

  /** "No results found" is shown for the empty array and nothing else. */
  lemma NoResultsIffEmptyArray(answer: Option<Json>, fmt: NumberFormat)
    ensures Render(answer, fmt) == NoResults <==> answer == Some(JArr([]))
  {
  }

  /** When element 0 is not of type "object", every element gets one block,
      in order, holding String(element); only element 0 was inspected, so
      later objects and arrays are shown by their string forms too. */
  lemma ScalarFirstGivesBlocks(es: seq<Json>, fmt: NumberFormat)
    requires |es| > 0 && TypeOf(es[0]) != "object"
    ensures Render(Some(JArr(es)), fmt).Blocks? <==> forall i | 0 <= i < |es| :: !HidesToString(es[i])
    ensures !Render(Some(JArr(es)), fmt).Blocks? ==> Render(Some(JArr(es)), fmt) == Thrown(CannotConvertToPrimitive)
    ensures Render(Some(JArr(es)), fmt).Blocks? ==>
      var items := Render(Some(JArr(es)), fmt).items;
      |items| == |es| && forall i | 0 <= i < |es| :: ToStr(es[i], fmt) == Ok(items[i])
  {
    forall i | 0 <= i < |es| ensures ToStr(es[i], fmt).Throw? <==> HidesToString(es[i]) {
      ToStrThrowsIff(es[i], fmt);
    }
  }

  /** When element 0 is a non-null object or an array, the header is its
      Object.keys and there is exactly one row per element, each row being
      that element's own Object.values converted to strings, in that
      element's own key order; a row may therefore hold more or fewer cells
      than the header has columns. */
  lemma TableFromFirstKeys(es: seq<Json>, fmt: NumberFormat)
    requires |es| > 0 && TypeOf(es[0]) == "object" && !es[0].JNull?
    ensures Render(Some(JArr(es)), fmt).Table? <==> forall i | 0 <= i < |es| :: RowCells(es[i], fmt).Ok?
    ensures !Render(Some(JArr(es)), fmt).Table? ==> Render(Some(JArr(es)), fmt).Thrown?
    ensures Render(Some(JArr(es)), fmt).Table? ==>
      var d := Render(Some(JArr(es)), fmt);
      && d.header == ObjectKeys(es[0]).value
      && |d.rows| == |es|
      && forall i | 0 <= i < |es| ::
           !es[i].JNull? && |d.rows[i]| == |ObjectValues(es[i]).value| && RowCells(es[i], fmt) == Ok(d.rows[i])
  {
  }

  /** A null first element takes the table branch, and Object.keys(null)
      throws before any row is built. */
  lemma NullFirstThrows(es: seq<Json>, fmt: NumberFormat)
    requires |es| > 0 && es[0] == JNull
    ensures Render(Some(JArr(es)), fmt) == Thrown(CannotConvertNullToObject)
  {
  }

  /** A null element anywhere in a table throws once the rows before it
      have been converted. */
  lemma NullRowThrows(es: seq<Json>, fmt: NumberFormat, k: nat)
    requires k < |es| && TypeOf(es[0]) == "object" && es[k] == JNull
    requires forall j | 0 <= j < k :: RowCells(es[j], fmt).Ok?
    ensures Render(Some(JArr(es)), fmt) == Thrown(CannotConvertNullToObject)
  {
    assert RowCells(es[k], fmt) == Throw(CannotConvertNullToObject);
    TableRowsFirstFailure(es, fmt, k);
  }

  /** A leading nested array gives the index names "0", "1", ... as header. */
  lemma NestedArrayHeader(inner: seq<Json>, rest: seq<Json>, fmt: NumberFormat)
    ensures Render(Some(JArr([JArr(inner)] + rest)), fmt).Table? ==>
      Render(Some(JArr([JArr(inner)] + rest)), fmt).header == IndexNames(|inner|)
  {
  }

  /** Only element 0 chooses between blocks and table: whatever follows it,
      the display is of the same kind or the render throws. */
  lemma FirstElementChoosesBranch(x: Json, t1: seq<Json>, t2: seq<Json>, fmt: NumberFormat)
    ensures Render(Some(JArr([x] + t1)), fmt).Blocks? ==> !Render(Some(JArr([x] + t2)), fmt).Table?
    ensures Render(Some(JArr([x] + t1)), fmt).Table? ==> !Render(Some(JArr([x] + t2)), fmt).Blocks?
  {
  }

  /** The cells of an object row follow that row's own Object.keys: cell j
      is String of the row's value for its own key j. Cells line up with the
      table header exactly when the row's own keys are the header. */
  lemma RowCellsFollowOwnKeys(ms: seq<Property>, fmt: NumberFormat)
    requires RowCells(JObj(ms), fmt).Ok?
    ensures |RowCells(JObj(ms), fmt).value| == |ObjectKeysOf(ms)|
    ensures forall j | 0 <= j < |ObjectKeysOf(ms)| ::
      LastValue(ms, ObjectKeysOf(ms)[j]).Some? &&
      ToStr(LastValue(ms, ObjectKeysOf(ms)[j]).value, fmt) == Ok(RowCells(JObj(ms), fmt).value[j])
  {
    OwnValuesMatchKeys(ms);
  }

  // ---------------------------------------------------------------------
  // Worked examples

  /** [1, 2, 3] gives three blocks, in order. */
  lemma ExampleScalarList(fmt: NumberFormat)
    ensures Render(Some(JArr([JNum(1.0), JNum(2.0), JNum(3.0)])), fmt) == Blocks([fmt(1.0), fmt(2.0), fmt(3.0)])
  {
  }

  /** Records with the same keys give an aligned table. */
  lemma ExampleCityTable(pune: seq<Property>, goa: seq<Property>, fmt: NumberFormat)
    requires pune == [("city", JStr("Pune")), ("cases", JNum(12.0))]
    requires goa == [("city", JStr("Goa")), ("cases", JNum(3.0))]
    ensures Render(Some(JArr([JObj(pune), JObj(goa)])), fmt) ==
      Table(["city", "cases"], [["Pune", fmt(12.0)], ["Goa", fmt(3.0)]])
  {
    StringAllOfConverted(ValuesOf(pune), ["Pune", fmt(12.0)], fmt);
    StringAllOfConverted(ValuesOf(goa), ["Goa", fmt(3.0)], fmt);
    TwoNonDigitRows(pune, goa, fmt);
  }

  /** A second record with reordered and extra keys is not realigned: its
      "b" value lands under the "a" column and it has a third cell. */
  lemma ExampleMisalignedRow(first: seq<Property>, second: seq<Property>, fmt: NumberFormat)
    requires first == [("a", JNum(1.0)), ("b", JNum(2.0))]
    requires second == [("b", JNum(3.0)), ("a", JNum(4.0)), ("c", JNum(5.0))]
    ensures Render(Some(JArr([JObj(first), JObj(second)])), fmt) ==
      Table(["a", "b"], [[fmt(1.0), fmt(2.0)], [fmt(3.0), fmt(4.0), fmt(5.0)]])
  {
    StringAllOfConverted(ValuesOf(first), [fmt(1.0), fmt(2.0)], fmt);
    StringAllOfConverted(ValuesOf(second), [fmt(3.0), fmt(4.0), fmt(5.0)], fmt);
    TwoNonDigitRows(first, second, fmt);
  }

  /** Two records with plain, distinct names: the header is the first
      record's names and each row lists its own record's values in its own
      member order. */
  lemma TwoPlainRows(m0: seq<Property>, m1: seq<Property>, fmt: NumberFormat)
    requires DistinctNames(m0) && DistinctNames(m1)
    requires forall i | 0 <= i < |m0| :: !IsArrayIndex(m0[i].0)
    requires forall i | 0 <= i < |m1| :: !IsArrayIndex(m1[i].0)
    requires StringAll(ValuesOf(m0), fmt).Ok? && StringAll(ValuesOf(m1), fmt).Ok?
    ensures Render(Some(JArr([JObj(m0), JObj(m1)])), fmt) ==
      Table(KeysOf(m0), [StringAll(ValuesOf(m0), fmt).value, StringAll(ValuesOf(m1), fmt).value])
  {
    PlainRowCells(m0, fmt);
    PlainRowCells(m1, fmt);
    TwoRows(JObj(m0), JObj(m1), fmt);
  }

  /** TwoPlainRows for names that are non-empty and do not start with a digit. */
  lemma TwoNonDigitRows(m0: seq<Property>, m1: seq<Property>, fmt: NumberFormat)
    requires DistinctNames(m0) && DistinctNames(m1)
    requires forall i | 0 <= i < |m0| :: |m0[i].0| > 0 && !IsDigit(m0[i].0[0])
    requires forall i | 0 <= i < |m1| :: |m1[i].0| > 0 && !IsDigit(m1[i].0[0])
    requires StringAll(ValuesOf(m0), fmt).Ok? && StringAll(ValuesOf(m1), fmt).Ok?
    ensures Render(Some(JArr([JObj(m0), JObj(m1)])), fmt) ==
      Table(KeysOf(m0), [StringAll(ValuesOf(m0), fmt).value, StringAll(ValuesOf(m1), fmt).value])
  {
    NonDigitNames(m0);
    NonDigitNames(m1);
    TwoPlainRows(m0, m1, fmt);
  }

  /** Header and rows of an object whose names are plain and distinct. */
  lemma PlainRowCells(ms: seq<Property>, fmt: NumberFormat)
    requires DistinctNames(ms)
    requires forall i | 0 <= i < |ms| :: !IsArrayIndex(ms[i].0)
    ensures ObjectKeys(JObj(ms)) == Ok(KeysOf(ms))
    ensures RowCells(JObj(ms), fmt) == StringAll(ValuesOf(ms), fmt)
  {
    PlainObjectKeepsOrder(ms);
    assert ObjectKeysOf(ms) == KeysOf(ms) && ObjectValuesOf(ms) == ValuesOf(ms);
    UnchangedRow(ms, fmt);
  }

  /** A name that is empty or starts with a non-digit is no array index. */
  lemma NonDigitNames(ms: seq<Property>)
    requires forall i | 0 <= i < |ms| :: |ms[i].0| > 0 && !IsDigit(ms[i].0[0])
    ensures forall i | 0 <= i < |ms| :: !IsArrayIndex(ms[i].0)
  {
    forall i | 0 <= i < |ms| ensures !IsArrayIndex(ms[i].0) {
      assert !IsDigit(ms[i].0[0]);
    }
  }

  lemma UnchangedRow(ms: seq<Property>, fmt: NumberFormat)
    requires ObjectKeysOf(ms) == KeysOf(ms) && ObjectValuesOf(ms) == ValuesOf(ms)
    ensures ObjectKeys(JObj(ms)) == Ok(KeysOf(ms))
    ensures RowCells(JObj(ms), fmt) == StringAll(ValuesOf(ms), fmt)
  {
    assert ObjectKeys(JObj(ms)) == Ok(ObjectKeysOf(ms));
    assert ObjectValues(JObj(ms)) == Ok(ObjectValuesOf(ms));
  }

  /** Values that each convert give exactly their converted strings. */
  lemma StringAllOfConverted(vs: seq<Json>, ss: seq<string>, fmt: NumberFormat)
    requires |vs| == |ss| && forall i | 0 <= i < |vs| :: ToStr(vs[i], fmt) == Ok(ss[i])
    ensures StringAll(vs, fmt) == Ok(ss)
  {
    var r := StringAll(vs, fmt);
    assert r.Ok?;
    assert forall i | 0 <= i < |vs| :: r.value[i] == ss[i];
    assert r.value == ss;
  }

  /** A two-element table, assembled from its two rows. */
  lemma TwoRows(x: Json, y: Json, fmt: NumberFormat)
    requires x.JObj? && RowCells(x, fmt).Ok? && RowCells(y, fmt).Ok?
    ensures Render(Some(JArr([x, y])), fmt) ==
      Table(ObjectKeys(x).value, [RowCells(x, fmt).value, RowCells(y, fmt).value])
  {
    var r := TableRows([x, y], fmt);
    assert [x, y][0] == x && [x, y][1] == y;
    assert r.Ok? && |r.value| == 2;
    assert r.value == [r.value[0], r.value[1]];
  }
}
