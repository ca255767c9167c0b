/**
 * The older table viewer of src/components/JsonToTable.jsx: it parses the
 * text in its input box into a read-only table, and lists the keys of the
 * object items as the headers.
 */
module SrcJsonToTable {
  import opened JsonModel
  import opened JsStrings
  import opened JsSet
  import Lib = LibJsonToTable

  /** The message `parseJson` leaves in `error`; only the last one differs from the lib copy. */
  function Message(c: Lib.TableInput): (msg: string)
    ensures msg == "" <==> c.Table?
    ensures !c.NotTabular? ==> msg == Lib.Message(c)
  {
    if c.NotTabular? then "JSON must be an array or object" else Lib.Message(c)
  }

  /** `typeof item === 'object' && item !== null` */
  predicate IsObjectItem(v: Json) {
    v.JObj? || v.JArr?
  }

  /** The key lists of the object items; other items contribute none. */
  function ItemKeys(items: seq<Json>): (kss: seq<seq<string>>)
    ensures |kss| == |items|
    ensures forall i :: 0 <= i < |items| ==> kss[i] == if IsObjectItem(items[i]) then Keys(OwnEntries(items[i])) else []
  {
    seq(|items|, i requires 0 <= i < |items| => if IsObjectItem(items[i]) then Keys(OwnEntries(items[i])) else [])
  }

  /** What `getTableHeaders(data)` returns. */
  function Headers(data: Option<seq<Json>>): seq<string> {
    if data.None? || data.value == [] then [] else FirstSeen(Concat(ItemKeys(data.value)))
  }

  /**
   * The headers are the keys of the object items, each once, in the order
   * first met; null and scalar items add none, and there are none without data.
   */
  lemma HeadersSpec(data: Option<seq<Json>>)
    ensures data.None? || data.value == [] ==> Headers(data) == []
    ensures NoDup(Headers(data))
    ensures forall k :: k in Headers(data) <==>
      data.Some? && exists i :: 0 <= i < |data.value| && IsObjectItem(data.value[i]) && k in Keys(OwnEntries(data.value[i]))
    ensures data.Some? && data.value != [] ==>
      var order := Concat(ItemKeys(data.value));
      && (forall k :: k in Headers(data) ==> k in order)
      && forall i, j :: 0 <= i < j < |Headers(data)| ==> FirstIndex(order, Headers(data)[i]) < FirstIndex(order, Headers(data)[j])
  {
    if data.Some? && data.value != [] {
      var kss := ItemKeys(data.value);
      FirstSeenSpec(Concat(kss));
      forall k ensures k in Concat(kss) <==>
        exists i :: 0 <= i < |data.value| && IsObjectItem(data.value[i]) && k in Keys(OwnEntries(data.value[i]))
      {
        InConcat(kss, k);
      }
    }
  }

  /** `getTableHeaders(data)`, src/components/JsonToTable.jsx:83-95 */
  method GetTableHeaders(data: Option<seq<Json>>) returns (headers: seq<string>)
    ensures headers == Headers(data)
  {
    if data.None? || |data.value| == 0 {
      return [];
    }
    var items := data.value;
    headers := [];
    var i := 0;
    while i < |items|
      invariant 0 <= i <= |items|
      invariant headers == FirstSeen(Concat(ItemKeys(items[..i])))
    {
      var ks := if IsObjectItem(items[i]) then Keys(OwnEntries(items[i])) else [];
      ItemKeysStep(items, i);
      headers := AddEach(headers, Concat(ItemKeys(items[..i])), ks);
      i := i + 1;
    }
    assert items[..|items|] == items;
  }

  /** One more item appends its keys to the concatenation. */
  lemma ItemKeysStep(items: seq<Json>, i: nat)
    requires i < |items|
    ensures Concat(ItemKeys(items[..i + 1])) ==
      Concat(ItemKeys(items[..i])) + (if IsObjectItem(items[i]) then Keys(OwnEntries(items[i])) else [])
  {
    var kss := ItemKeys(items[..i + 1]);
    assert kss[..i] == ItemKeys(items[..i]);
  }

  class ViewerSession {
    /** `JSON.parse`, as the text-to-value function it is. */
    const parse: string -> ParseResult
    var jsonInput: string
    var tableData: Option<seq<Json>>
    var error: string

    constructor(parse: string -> ParseResult)
      ensures this.parse == parse && jsonInput == "" && tableData.None? && error == ""
    {
      this.parse := parse;
      jsonInput := "";
      tableData := None;
      error := "";
    }

    /** The input box's `onChange`. */
    method SetJsonInput(text: string)
      modifies this
      ensures jsonInput == text && tableData == old(tableData) && error == old(error)
    {
      jsonInput := text;
    }

    /** `parseJson()`, src/components/JsonToTable.jsx:30-60, on the text in the input box. */
    method ParseJson()
      modifies this
      ensures jsonInput == old(jsonInput)
      ensures error == Message(Lib.Classify(jsonInput, parse))
      ensures tableData == if Lib.Classify(jsonInput, parse).Table? then Some(Lib.Classify(jsonInput, parse).rows) else None
    {
      error := "";
      tableData := None;
      if Trim(jsonInput) == "" {
        error := "Please enter some JSON data";
        return;
      }
      match parse(jsonInput)
      case ParseError(m) =>
        error := "Invalid JSON: " + m;
      case Parsed(parsed) =>
        if parsed.JArr? {
          if |parsed.items| == 0 {
            error := "The JSON array is empty";
            return;
          }
          tableData := Some(parsed.items);
        } else if parsed.JObj? {
          tableData := Some([parsed]);
        } else {
          error := "JSON must be an array or object";
        }
    }

    /** `clearAll()`, src/components/JsonToTable.jsx:62-66 */
    method ClearAll()
      modifies this
      ensures jsonInput == "" && tableData.None? && error == ""
    {
      jsonInput := "";
      tableData := None;
      error := "";
    }

    /** `loadSample()`, src/components/JsonToTable.jsx:68-72: the sample text, nothing parsed yet. */
    method LoadSample()
      modifies this
      ensures jsonInput == Lib.SampleJson() && tableData.None? && error == ""
    {
      jsonInput := Lib.SampleJson();
      error := "";
      tableData := None;
    }
  }

  /** Parsing after `clearAll` always reports the blank input. */
  method ClearThenParse(s: ViewerSession)
    modifies s
    ensures s.tableData.None? && s.error == "Please enter some JSON data"
  {
    s.ClearAll();
    s.ParseJson();
  }
}
