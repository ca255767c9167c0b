/**
 * The table editor of lib/components/JsonToTable.jsx.
 *
 * The parsed rows are objects shared by reference between `tableData` and
 * the shallow array copy `editableData`, so they are modelled as `Row`
 * objects: a cell edit writes into one of them and both arrays see it.
 */
module LibJsonToTable {
  import opened JsonModel
  import opened JsStrings
  import opened JsSet

  /** One row object of the table, shared between the arrays that list it. */
  class Row {
    var value: Json

    constructor(v: Json)
      ensures value == v
    {
      value := v;
    }
  }

  /** The values the rows hold now. */
  function Values(rows: seq<Row>): (vs: seq<Json>)
    reads rows
    ensures |vs| == |rows|
    ensures forall i :: 0 <= i < |rows| ==> vs[i] == rows[i].value
  {
    seq(|rows|, i reads rows requires 0 <= i < |rows| => rows[i].value)
  }

  // ---------------------------------------------------------------------------
  // Input classification, shared by both table components

  /** What `parseJson` makes of the input text. */
  datatype TableInput =
    | Blank
    | Invalid(message: string)
    | EmptyArray
    | Table(rows: seq<Json>)
    | NotTabular

  function Classify(input: string, parse: string -> ParseResult): TableInput {
    if Trim(input) == "" then Blank
    else match parse(input)
      case ParseError(m) => Invalid(m)
      case Parsed(JArr(items)) => if items == [] then EmptyArray else Table(items)
      case Parsed(JObj(fs)) => Table([JObj(fs)])
      case Parsed(_) => NotTabular
  }

  /**
   * Only blank text is refused before parsing; a table always has at least
   * one row, and it is the parsed array itself or the parsed object alone.
   */
  lemma ClassifyCases(input: string, parse: string -> ParseResult)
    ensures Classify(input, parse).Blank? <==> Trim(input) == ""
    ensures Classify(input, parse).Invalid? <==> Trim(input) != "" && parse(input).ParseError?
    ensures Classify(input, parse).Invalid? ==> Classify(input, parse).message == parse(input).message
    ensures Classify(input, parse).EmptyArray? <==> Trim(input) != "" && parse(input) == Parsed(JArr([]))
    ensures Classify(input, parse).Table? <==>
      Trim(input) != "" && parse(input).Parsed? && (parse(input).data.JObj? || (parse(input).data.JArr? && parse(input).data.items != []))
    ensures Classify(input, parse).Table? ==>
      && Classify(input, parse).rows != []
      && Classify(input, parse).rows == if parse(input).data.JArr? then parse(input).data.items else [parse(input).data]
    ensures Classify(input, parse).NotTabular? <==>
      Trim(input) != "" && parse(input).Parsed? && !parse(input).data.JArr? && !parse(input).data.JObj?
  {
  }

  /** The message `parseJson` leaves in `error`. */
  function Message(c: TableInput): (msg: string)
    ensures msg == "" <==> c.Table?
  {
    match c
    case Blank => "Please enter some JSON data"
    case Invalid(m) => "Invalid JSON: " + m
    case EmptyArray => "The JSON array is empty"
    case Table(_) => ""
    case NotTabular => "JSON must be an object or array of objects"
  }

  // ---------------------------------------------------------------------------
  // getColumns

  /** `Object.keys(v)`; `None` where it throws, on `null`. */
  function ObjectKeys(v: Json): Option<seq<string>> {
    if v.JNull? then None else Some(Keys(OwnEntries(v)))
  }

  /** The key lists of the rows in order; `None` if some row is `null`. */
  function RowKeys(vs: seq<Json>): Option<seq<seq<string>>>
    decreases |vs|
  {
    if vs == [] then Some([])
    else match RowKeys(vs[..|vs| - 1])
      case None => None
      case Some(kss) =>
        match ObjectKeys(vs[|vs| - 1])
        case None => None
        case Some(ks) => Some(kss + [ks])
  }

  lemma {:induction false} RowKeysCases(vs: seq<Json>)
    ensures RowKeys(vs).None? <==> JNull in vs
    ensures RowKeys(vs).Some? ==>
      && |RowKeys(vs).value| == |vs|
      && forall i :: 0 <= i < |vs| ==> RowKeys(vs).value[i] == Keys(OwnEntries(vs[i]))
    decreases |vs|
  {
    if vs != [] {
      var p := vs[..|vs| - 1];
      RowKeysCases(p);
      assert vs == p + [vs[|vs| - 1]];
      if RowKeys(vs).Some? {
        var kss := RowKeys(p).value;
        forall i | 0 <= i < |vs| ensures RowKeys(vs).value[i] == Keys(OwnEntries(vs[i])) {
          if i < |p| { assert vs[i] == p[i]; }
        }
      }
    }
  }

  /** What `getColumns()` returns; `None` where `Object.keys` throws. */
  function Columns(data: Option<seq<Json>>): Option<seq<string>> {
    if data.None? || data.value == [] then Some([])
    else match RowKeys(data.value)
      case None => None
      case Some(kss) => Some(FirstSeen(Concat(kss)))
  }

  /**
   * The columns are every key of every row, each once, in the order the keys
   * are first met row by row; there are none without data.
   */
  lemma ColumnsSpec(data: Option<seq<Json>>)
    ensures data.None? || data.value == [] ==> Columns(data) == Some([])
    ensures Columns(data).None? <==> data.Some? && JNull in data.value
    ensures Columns(data).Some? ==> NoDup(Columns(data).value)
    ensures Columns(data).Some? ==> forall k ::
      k in Columns(data).value <==> data.Some? && exists i :: 0 <= i < |data.value| && k in Keys(OwnEntries(data.value[i]))
    ensures Columns(data).Some? && data.Some? && data.value != [] ==>
      forall k :: k in Columns(data).value ==> k in Concat(RowKeys(data.value).value)
    ensures Columns(data).Some? && data.Some? && data.value != [] ==>
      var order := Concat(RowKeys(data.value).value);
      forall i, j :: 0 <= i < j < |Columns(data).value| ==>
        FirstIndex(order, Columns(data).value[i]) < FirstIndex(order, Columns(data).value[j])
  {
    if data.Some? && data.value != [] {
      RowKeysCases(data.value);
      if RowKeys(data.value).Some? {
        var kss := RowKeys(data.value).value;
        FirstSeenSpec(Concat(kss));
        forall k ensures k in Concat(kss) <==> exists i :: 0 <= i < |data.value| && k in Keys(OwnEntries(data.value[i])) {
          InConcat(kss, k);
        }
      }
    }
  }

  /** Fresh, distinct row objects holding `items`. */
  method MakeRows(items: seq<Json>) returns (rows: seq<Row>)
    ensures Values(rows) == items
    ensures NoDup(rows)
    ensures forall r :: r in rows ==> fresh(r)
  {
    rows := [];
    var i := 0;
    while i < |items|
      invariant 0 <= i <= |items|
      invariant |rows| == i && NoDup(rows)
      invariant forall k :: 0 <= k < i ==> rows[k].value == items[k]
      invariant forall r :: r in rows ==> fresh(r)
    {
      var row := new Row(items[i]);
      rows := rows + [row];
      i := i + 1;
    }
  }

  /** The rows handed to `onSave`, with their shallow copies. */
  datatype Saved = Saved(nested: seq<Row>, flat: seq<Json>)

  // ---------------------------------------------------------------------------
  // The component's state

  class TableSession {
    /** `JSON.parse`, as the text-to-value function it is. */
    const parse: string -> ParseResult
    var jsonInput: string
    var tableData: Option<seq<Row>>
    var editableData: Option<seq<Row>>
    var error: string

    /** Both arrays list the same distinct rows whenever there is a table. */
    ghost predicate Valid()
      reads this
    {
      && (editableData.Some? ==> NoDup(editableData.value))
      && (tableData.Some? ==> editableData == tableData)
    }

    function EditableRows(): set<object>
      reads this
    {
      if editableData.None? then {} else set r | r in editableData.value
    }

    /** The state after mounting with `initialJson`, before its effect runs. */
    constructor(parse: string -> ParseResult, initialJson: string)
      ensures this.parse == parse && jsonInput == initialJson
      ensures tableData.None? && editableData.None? && error == ""
      ensures Valid()
    {
      this.parse := parse;
      jsonInput := initialJson;
      tableData := None;
      editableData := None;
      error := "";
    }

    /** `parseJson(jsonString)`, lib/components/JsonToTable.jsx:51-81 */
    method ParseJson(jsonString: string)
      requires Valid()
      modifies this
      ensures Valid()
      ensures jsonInput == old(jsonInput)
      ensures error == Message(Classify(jsonString, parse))
      ensures Classify(jsonString, parse).Table? ==>
        && tableData.Some?
        && Values(tableData.value) == Classify(jsonString, parse).rows
        && (forall r :: r in tableData.value ==> fresh(r))
      ensures !Classify(jsonString, parse).Table? ==> tableData.None? && editableData == old(editableData)
    {
      error := "";
      tableData := None;
      if Trim(jsonString) == "" {
        error := "Please enter some JSON data";
        return;
      }
      match parse(jsonString)
      case ParseError(m) =>
        error := "Invalid JSON: " + m;
      case Parsed(parsed) =>
        if parsed.JArr? {
          if |parsed.items| == 0 {
            error := "The JSON array is empty";
            return;
          }
          var rows := MakeRows(parsed.items);
          tableData := Some(rows);
          editableData := Some(rows);
        } else if parsed.JObj? {
          var row := new Row(parsed);
          tableData := Some([row]);
          editableData := Some([row]);
        } else {
          error := "JSON must be an object or array of objects";
          return;
        }
    }

    /** The effect on `initialJson`, lib/components/JsonToTable.jsx:44-49 */
    method OnInitialJson(initialJson: string)
      requires Valid()
      modifies this
      ensures Valid()
      ensures initialJson == "" ==>
        && jsonInput == old(jsonInput) && error == old(error)
        && tableData == old(tableData) && editableData == old(editableData)
      ensures initialJson != "" ==> jsonInput == initialJson && error == Message(Classify(initialJson, parse))
      ensures initialJson != "" && Classify(initialJson, parse).Table? ==>
        tableData.Some? && Values(tableData.value) == Classify(initialJson, parse).rows
      ensures initialJson != "" && !Classify(initialJson, parse).Table? ==>
        tableData.None? && editableData == old(editableData)
    {
      if initialJson != "" {
        jsonInput := initialJson;
        ParseJson(initialJson);
      }
    }

    /** The textarea's `onChange`, lib/components/JsonToTable.jsx:208: only the text changes. */
    method SetJsonInput(text: string)
      modifies this
      ensures jsonInput == text
      ensures tableData == old(tableData) && editableData == old(editableData) && error == old(error)
    {
      jsonInput := text;
    }

    /**
     * The "Generate Table" button, lib/components/JsonToTable.jsx:224:
     * `parseJson()` on the text in the box.
     */
    method Generate()
      requires Valid()
      modifies this
      ensures Valid()
      ensures jsonInput == old(jsonInput)
      ensures error == Message(Classify(jsonInput, parse))
      ensures Classify(jsonInput, parse).Table? ==>
        tableData.Some? && Values(tableData.value) == Classify(jsonInput, parse).rows
      ensures !Classify(jsonInput, parse).Table? ==> tableData.None? && editableData == old(editableData)
    {
      ParseJson(jsonInput);
    }

    /** `loadSample()`, lib/components/JsonToTable.jsx:109-112 */
    method LoadSample()
      requires Valid()
      modifies this
      ensures Valid()
      ensures jsonInput == SampleJson()
      ensures error == Message(Classify(SampleJson(), parse))
      ensures Classify(SampleJson(), parse).Table? ==>
        tableData.Some? && Values(tableData.value) == Classify(SampleJson(), parse).rows
      ensures !Classify(SampleJson(), parse).Table? ==> tableData.None? && editableData == old(editableData)
    {
      jsonInput := SampleJson();
      ParseJson(SampleJson());
    }

    /**
     * `handleCellEdit(rowIndex, key, value)`, lib/components/JsonToTable.jsx:83-91.
     * `false` where the assignment throws: no table yet, no row at that index,
     * or a row that is not a plain object.
     */
    method HandleCellEdit(rowIndex: int, key: string, value: Json) returns (ok: bool)
      requires Valid()
      modifies this, EditableRows()
      ensures Valid()
      ensures ok <==>
        && old(editableData).Some? && 0 <= rowIndex < |old(editableData).value|
        && old(editableData.value[rowIndex].value).JObj?
      ensures editableData == old(editableData) && tableData == old(tableData)
      ensures error == old(error) && jsonInput == old(jsonInput)
      ensures ok ==>
        var rows := editableData.value;
        && rows[rowIndex].value == JObj(Put(old(rows[rowIndex].value).fields, key, value))
        && (forall j :: 0 <= j < |rows| && j != rowIndex ==> rows[j].value == old(rows[j].value))
        && (tableData.Some? ==> tableData.value[rowIndex].value == rows[rowIndex].value)
      ensures !ok ==> editableData.Some? ==> forall r :: r in editableData.value ==> r.value == old(r.value)
    {
      if editableData.None? || !(0 <= rowIndex < |editableData.value|) {
        return false;
      }
      var newData := editableData.value;
      var row := newData[rowIndex];
      if !row.value.JObj? {
        return false;
      }
      row.value := JObj(Put(row.value.fields, key, value));
      editableData := Some(newData);
      return true;
    }

    /**
     * `handleCancel()`, lib/components/JsonToTable.jsx:100-107. The rows are
     * not touched: `editableData` lists the same row objects again, so an
     * earlier cell edit stays in place.
     */
    method HandleCancel()
      requires Valid()
      modifies this
      ensures Valid()
      ensures tableData == old(tableData) && error == old(error) && jsonInput == old(jsonInput)
      ensures tableData.Some? ==> editableData == tableData
      ensures tableData.None? ==> editableData == old(editableData)
    {
      if tableData.Some? {
        editableData := tableData;
      }
    }

    /**
     * `handleSave()`, lib/components/JsonToTable.jsx:93-98: `None` unless there
     * are an `onSave` callback and rows; otherwise the rows and a shallow copy
     * of each.
     */
    method HandleSave(hasOnSave: bool) returns (saved: Option<Saved>)
      ensures saved.Some? <==> hasOnSave && editableData.Some?
      ensures saved.Some? ==>
        && saved.value.nested == editableData.value
        && |saved.value.flat| == |saved.value.nested|
        && forall i :: 0 <= i < |saved.value.flat| ==> saved.value.flat[i] == JObj(OwnEntries(saved.value.nested[i].value))
    {
      if !hasOnSave || editableData.None? {
        return None;
      }
      var rows := editableData.value;
      var flat: seq<Json> := [];
      var i := 0;
      while i < |rows|
        invariant 0 <= i <= |rows|
        invariant |flat| == i
        invariant forall k :: 0 <= k < i ==> flat[k] == JObj(OwnEntries(rows[k].value))
      {
        flat := flat + [JObj(OwnEntries(rows[i].value))];
        i := i + 1;
      }
      return Some(Saved(rows, flat));
    }

    /** `getColumns()`, lib/components/JsonToTable.jsx:114-123 */
    method GetColumns() returns (columns: Option<seq<string>>)
      ensures columns == Columns(if tableData.None? then None else Some(Values(tableData.value)))
    {
      if tableData.None? || |tableData.value| == 0 {
        return Some([]);
      }
      var rows := tableData.value;
      ghost var vs := Values(rows);
      var allKeys: seq<string> := [];
      var i := 0;
      while i < |rows|
        invariant 0 <= i <= |rows|
        invariant RowKeys(vs[..i]).Some? && allKeys == FirstSeen(Concat(RowKeys(vs[..i]).value))
      {
        var v := rows[i].value;
        if v.JNull? {
          RowKeysNullPrefix(vs, i + 1);
          return None;
        }
        var ks := Keys(OwnEntries(v));
        RowKeysStep(vs, i);
        allKeys := AddEach(allKeys, Concat(RowKeys(vs[..i]).value), ks);
        i := i + 1;
      }
      assert vs[..|rows|] == vs;
      return Some(allKeys);
    }

    lemma RowKeysStep(vs: seq<Json>, i: nat)
      requires i < |vs| && !vs[i].JNull? && RowKeys(vs[..i]).Some?
      ensures RowKeys(vs[..i + 1]).Some?
      ensures Concat(RowKeys(vs[..i + 1]).value) == Concat(RowKeys(vs[..i]).value) + Keys(OwnEntries(vs[i]))
    {
      assert vs[..i + 1][..i] == vs[..i];
      var kss := RowKeys(vs[..i]).value + [Keys(OwnEntries(vs[i]))];
      assert kss[..|kss| - 1] == RowKeys(vs[..i]).value;
    }

    lemma RowKeysNullPrefix(vs: seq<Json>, n: nat)
      requires 0 < n <= |vs| && vs[n - 1] == JNull
      ensures RowKeys(vs) == None
    {
      RowKeysCases(vs);
    }
  }

  /** Editing a cell and then cancelling leaves the edit in both arrays. */
  method EditThenCancel(s: TableSession, rowIndex: int, key: string, value: Json)
    requires s.Valid() && s.tableData.Some?
    requires 0 <= rowIndex < |s.tableData.value| && s.tableData.value[rowIndex].value.JObj?
    modifies s, s.EditableRows()
    ensures s.tableData == old(s.tableData) && s.editableData == s.tableData
    ensures s.tableData.value[rowIndex].value == JObj(Put(old(s.tableData.value[rowIndex].value).fields, key, value))
  {
    var ok := s.HandleCellEdit(rowIndex, key, value);
    s.HandleCancel();
  }

  /** Typing text and pressing "Generate Table" classifies that text, whatever was shown before. */
  method TypeThenGenerate(s: TableSession, text: string)
    requires s.Valid()
    modifies s
    ensures s.jsonInput == text
    ensures s.error == Message(Classify(text, s.parse))
    ensures s.error == "" <==> Classify(text, s.parse).Table?
  {
    s.SetJsonInput(text);
    s.Generate();
  }

  // ---------------------------------------------------------------------------
  // The sample, lib/components/JsonToTable.jsx:37-42 and src/components/JsonToTable.jsx:23-28

  function SampleRow(id: int, name: string, email: string, role: string, salary: int): Json {
    JObj([("id", JNum(id)), ("name", JStr(name)), ("email", JStr(email)), ("role", JStr(role)), ("salary", JNum(salary))])
  }

  /** The sample table as a value. */
  function SampleRows(): seq<Json> {
    [ SampleRow(1, "John Doe", "john@example.com", "Developer", 75000),
      SampleRow(2, "Jane Smith", "jane@example.com", "Designer", 68000),
      SampleRow(3, "Bob Johnson", "bob@example.com", "Manager", 85000),
      SampleRow(4, "Alice Brown", "alice@example.com", "Developer", 72000) ]
  }

  function SampleRowText(id: string, name: string, email: string, role: string, salary: string): string {
    "  {\n"
    + "    \"id\": " + id + ",\n"
    + "    \"name\": \"" + name + "\",\n"
    + "    \"email\": \"" + email + "\",\n"
    + "    \"role\": \"" + role + "\",\n"
    + "    \"salary\": " + salary + "\n"
    + "  }"
  }

  /** `JSON.stringify(sample, null, 2)`: the text of the sample with two-space indentation. */
  function SampleJson(): string {
    "[\n"
    + SampleRowText("1", "John Doe", "john@example.com", "Developer", "75000") + ",\n"
    + SampleRowText("2", "Jane Smith", "jane@example.com", "Designer", "68000") + ",\n"
    + SampleRowText("3", "Bob Johnson", "bob@example.com", "Manager", "85000") + ",\n"
    + SampleRowText("4", "Alice Brown", "alice@example.com", "Developer", "72000") + "\n"
    + "]"
  }

  /** Rows that all have the same keys give those keys as the columns, in their order. */
  lemma {:induction false} UniformColumns(vs: seq<Json>, ks: seq<string>)
    requires vs != [] && NoDup(ks)
    requires forall i :: 0 <= i < |vs| ==> !vs[i].JNull? && Keys(OwnEntries(vs[i])) == ks
    ensures Columns(Some(vs)) == Some(ks)
  {
    RowKeysCases(vs);
    UniformConcat(RowKeys(vs).value, ks);
    FirstSeenOfDistinct(ks);
  }

  lemma {:induction false} UniformConcat(kss: seq<seq<string>>, ks: seq<string>)
    requires kss != [] && NoDup(ks)
    requires forall i :: 0 <= i < |kss| ==> kss[i] == ks
    ensures FirstSeen(Concat(kss)) == FirstSeen(ks)
    decreases |kss|
  {
    var p := kss[..|kss| - 1];
    if p == [] {
      assert Concat(kss) == [] + ks;
      assert [] + ks == ks;
    } else {
      UniformConcat(p, ks);
      FirstSeenSpec(Concat(p));
      FirstSeenSpec(ks);
      FirstSeenExtend(Concat(p), ks);
    }
  }

  /** The sample's columns are its five keys. */
  lemma SampleColumns(vs: seq<Json>)
    requires vs == SampleRows()
    ensures Columns(Some(vs)) == Some(["id", "name", "email", "role", "salary"])
  {
    var ks := ["id", "name", "email", "role", "salary"];
    forall i | 0 <= i < |vs| ensures !vs[i].JNull? && Keys(OwnEntries(vs[i])) == ks {
    }
    UniformColumns(vs, ks);
  }
}
