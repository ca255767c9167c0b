/**
 * The form editor of lib/components/JsonToFields.jsx: the parsed JSON is
 * flattened into one field per dotted key, edited field by field, and
 * unflattened again for the callbacks.
 */
module LibJsonToFields {
  import opened JsonModel
  import opened JsSet
  import opened LibJsonUtils

  class FormSession {
    /** `parseJsonSafely`, with the parser as the text-to-value function it is. */
    const parse: string -> ParseResult
    var jsonInput: string
    var formData: Entries
    var originalFormData: Entries
    var parsedJson: Option<Json>
    var error: string

    /** Both maps are JavaScript objects: no key twice. */
    ghost predicate Valid()
      reads this
    {
      DistinctKeys(formData) && DistinctKeys(originalFormData)
    }

    /** The state after mounting with `initialJson`, before its effect runs. */
    constructor(parse: string -> ParseResult, initialJson: string)
      ensures this.parse == parse && jsonInput == initialJson
      ensures formData == [] && originalFormData == [] && parsedJson.None? && error == ""
      ensures Valid()
    {
      this.parse := parse;
      jsonInput := initialJson;
      formData := [];
      originalFormData := [];
      parsedJson := None;
      error := "";
    }

    /** `parseJson(jsonString)`, lib/components/JsonToFields.jsx:60-75 */
    method ParseJson(jsonString: string)
      requires Valid()
      modifies this
      ensures Valid()
      ensures jsonInput == old(jsonInput)
      ensures parse(jsonString).Parsed? ==>
        && parsedJson == Some(parse(jsonString).data)
        && formData == Flatten(parse(jsonString).data, "")
        && originalFormData == formData
        && error == ""
      ensures parse(jsonString).ParseError? ==>
        && error == parse(jsonString).message
        && parsedJson.None? && formData == [] && originalFormData == []
    {
      match parse(jsonString)
      case Parsed(data) =>
        parsedJson := Some(data);
        var flattened := FlattenObject(data, "");
        FlattenDistinct(data, "");
        formData := flattened;
        originalFormData := flattened;
        error := "";
      case ParseError(message) =>
        error := message;
        parsedJson := None;
        formData := [];
        originalFormData := [];
    }

    /**
     * The effect on `initialJson`, lib/components/JsonToFields.jsx:46-58: a
     * non-empty text is shown and parsed; the empty text clears everything.
     */
    method OnInitialJson(initialJson: string)
      requires Valid()
      modifies this
      ensures Valid()
      ensures initialJson != "" ==> jsonInput == initialJson
      ensures initialJson != "" && parse(initialJson).Parsed? ==>
        && parsedJson == Some(parse(initialJson).data)
        && formData == Flatten(parse(initialJson).data, "") && originalFormData == formData && error == ""
      ensures initialJson != "" && parse(initialJson).ParseError? ==>
        parsedJson.None? && formData == [] && originalFormData == [] && error == parse(initialJson).message
      ensures initialJson == "" ==>
        jsonInput == "" && formData == [] && originalFormData == [] && parsedJson.None? && error == ""
    {
      if initialJson != "" {
        jsonInput := initialJson;
        ParseJson(initialJson);
      } else {
        jsonInput := "";
        formData := [];
        originalFormData := [];
        parsedJson := None;
        error := "";
      }
    }

    /** The input box's `onChange`. */
    method SetJsonInput(text: string)
      modifies this
      ensures jsonInput == text
      ensures formData == old(formData) && originalFormData == old(originalFormData) && error == old(error)
      ensures parsedJson == old(parsedJson)
    {
      jsonInput := text;
    }

    /**
     * `handleFieldChange(key, value)`, lib/components/JsonToFields.jsx:77-88:
     * one field takes the new value, or is added at the end when absent; all
     * other fields and the original are unchanged. Returns what
     * `onFieldChange` receives, `None` where `unflattenObject` throws.
     */
    method HandleFieldChange(key: string, value: Json) returns (nested: Option<Entries>)
      requires Valid()
      modifies this
      ensures Valid()
      ensures formData == Put(old(formData), key, value)
      ensures forall k :: Get(formData, k) == if k == key then Some(value) else Get(old(formData), k)
      ensures Keys(formData) == if key in Keys(old(formData)) then Keys(old(formData)) else Keys(old(formData)) + [key]
      ensures originalFormData == old(originalFormData) && error == old(error) && jsonInput == old(jsonInput)
      ensures parsedJson == old(parsedJson)
      ensures nested == Unflatten(formData)
    {
      PutKeepsDistinct(formData, key, value);
      forall k ensures Get(Put(formData, key, value), k) == if k == key then Some(value) else Get(formData, k) {
        GetPut(formData, key, value, k);
      }
      KeysPut(formData, key, value);
      formData := Put(formData, key, value);
      nested := UnflattenObject(formData);
    }

    /**
     * A multi-select checkbox's `onChange`, lib/components/JsonToFields.jsx:196-222:
     * the toggled list becomes the field's value.
     */
    method HandleMultiSelect(key: string, option: Json, checked: bool) returns (nested: Option<Entries>)
      requires Valid()
      modifies this
      ensures Valid()
      ensures formData == Put(old(formData), key, JArr(Toggle(old(CurrentValue(key)), option, checked)))
      ensures originalFormData == old(originalFormData) && error == old(error) && jsonInput == old(jsonInput)
      ensures parsedJson == old(parsedJson)
      ensures nested == Unflatten(formData)
    {
      var newValues := Toggle(CurrentValue(key), option, checked);
      nested := HandleFieldChange(key, JArr(newValues));
    }

    /** `formData[key]`, `null` standing in for `undefined`. */
    function CurrentValue(key: string): Json
      reads this
    {
      match Get(formData, key)
      case Some(v) => v
      case None => JNull
    }

    /** `handleSave()`, lib/components/JsonToFields.jsx:90-95: what `onSave` receives. */
    method HandleSave() returns (nested: Option<Entries>, flat: Entries)
      ensures nested == Unflatten(formData) && flat == formData
    {
      nested := UnflattenObject(formData);
      flat := formData;
    }

    /** `handleCancel()`, lib/components/JsonToFields.jsx:97-102: every field back to the parsed value. */
    method HandleCancel()
      requires Valid()
      modifies this
      ensures Valid()
      ensures formData == originalFormData
      ensures originalFormData == old(originalFormData) && error == old(error) && jsonInput == old(jsonInput)
      ensures parsedJson == old(parsedJson)
    {
      formData := originalFormData;
    }
  }

  /** Whatever fields were edited since, cancelling gives back what the last parse produced. */
  method EditThenCancel(s: FormSession, text: string, key: string, value: Json)
    requires s.Valid()
    modifies s
    ensures s.parse(text).Parsed? ==> s.formData == Flatten(s.parse(text).data, "")
  {
    s.ParseJson(text);
    var nested := s.HandleFieldChange(key, value);
    s.HandleCancel();
  }

  // ---------------------------------------------------------------------------
  // Multi-select

  /** The selected values: the current value when it is an array, else none. */
  function Selected(current: Json): seq<Json> {
    if current.JArr? then current.items else []
  }

  /** Every element except those equal to `x`, in order. */
  function Remove(s: seq<Json>, x: Json): (r: seq<Json>)
    ensures forall y :: y in r <==> y in s && y != x
    ensures forall y :: multiset(r)[y] == if y == x then 0 else multiset(s)[y]
    ensures |r| <= |s|
  {
    if s == [] then []
    else
      assert s == [s[0]] + s[1..];
      (if s[0] == x then [] else [s[0]]) + Remove(s[1..], x)
  }

  /** The new list of values after checking or unchecking `option`. */
  function Toggle(current: Json, option: Json, checked: bool): seq<Json> {
    if checked then Selected(current) + [option] else Remove(Selected(current), option)
  }

  /**
   * Checking appends the option after the selected values; unchecking
   * removes every copy of it and keeps every other value as often as it was
   * there and in the same order (each further selected value is kept at the
   * end, or dropped when it is the option); a value that is not an array
   * counts as nothing selected.
   */
  lemma ToggleSpec(current: Json, option: Json)
    ensures Toggle(current, option, true)[..|Selected(current)|] == Selected(current)
    ensures |Toggle(current, option, true)| == |Selected(current)| + 1
    ensures Toggle(current, option, true)[|Selected(current)|] == option
    ensures forall y :: y in Toggle(current, option, false) <==> y in Selected(current) && y != option
    ensures forall y :: multiset(Toggle(current, option, false))[y] == if y == option then 0 else multiset(Selected(current))[y]
    ensures Toggle(JArr([]), option, false) == []
    ensures var sel := Selected(current);
      forall n :: 0 <= n < |sel| ==>
        Toggle(JArr(sel[..n + 1]), option, false) == Toggle(JArr(sel[..n]), option, false) + (if sel[n] == option then [] else [sel[n]])
    ensures !current.JArr? ==> Toggle(current, option, true) == [option] && Toggle(current, option, false) == []
  {
    var sel := Selected(current);
    forall n | 0 <= n < |sel|
      ensures Toggle(JArr(sel[..n + 1]), option, false) == Toggle(JArr(sel[..n]), option, false) + (if sel[n] == option then [] else [sel[n]])
    {
      assert sel[..n + 1] == sel[..n] + [sel[n]];
      RemoveSnoc(sel[..n], option, sel[n]);
    }
  }

  lemma {:induction false} RemoveAbsent(s: seq<Json>, x: Json)
    requires x !in s
    ensures Remove(s, x) == s
  {
    if s != [] {
      RemoveAbsent(s[1..], x);
      assert [s[0]] + s[1..] == s;
    }
  }

  /** Unchecking an option just checked restores the selection it was added to. */
  lemma UncheckUndoesCheck(current: Json, option: Json)
    requires option !in Selected(current)
    ensures Toggle(JArr(Toggle(current, option, true)), option, false) == Selected(current)
  {
    RemoveAbsent(Selected(current), option);
    RemoveSnoc(Selected(current), option, option);
  }

  /** Removing from a longer list: the last element stays at the end unless it is the one removed. */
  lemma {:induction false} RemoveSnoc(s: seq<Json>, x: Json, y: Json)
    ensures Remove(s + [y], x) == Remove(s, x) + (if y == x then [] else [y])
  {
    if s == [] {
      assert [y][1..] == [];
    } else {
      assert (s + [y])[0] == s[0] && (s + [y])[1..] == s[1..] + [y];
      RemoveSnoc(s[1..], x, y);
    }
  }

  // ---------------------------------------------------------------------------
  // Columns

  /** `Math.ceil(n / columns)` for positive `columns`. */
  function CeilDiv(n: nat, columns: nat): (q: nat)
    requires columns > 0
    ensures q * columns >= n && (q == 0 || (q - 1) * columns < n)
  {
    (n + columns - 1) / columns
  }

  function Min(a: int, b: int): int {
    if a <= b then a else b
  }

  /**
   * `formEntries.slice(start, end)` for `0 <= start` and `end <= |es|`: empty
   * when the range is empty or reversed.
   */
  function Slice<T>(es: seq<T>, start: nat, end: nat): seq<T>
    requires end <= |es|
  {
    if start >= end then [] else es[start..end]
  }

  /**
   * The groups of `renderFormFields`, lib/components/JsonToFields.jsx:414-437:
   * one group when `columns <= 1`, else `columns` slices of
   * `ceil(n / columns)` entries each, the last ones shorter or empty.
   */
  method ColumnGroups(entries: Entries, columns: int) returns (groups: seq<Entries>)
    ensures columns <= 1 ==> groups == [entries]
    ensures columns > 1 ==>
      && |groups| == columns
      && (forall i :: 0 <= i < |groups| ==> |groups[i]| <= CeilDiv(|entries|, columns))
      && Concat(groups) == entries
    ensures columns > 1 ==>
      forall i :: 0 <= i < |groups| ==> groups[i] == Column(entries, CeilDiv(|entries|, columns), i)
    ensures columns > 1 ==>
      forall i, j :: 0 <= i < j < |groups| && groups[j] != [] ==> |groups[i]| == CeilDiv(|entries|, columns)
  {
    if columns <= 1 {
      return [entries];
    }
    var n := |entries|;
    var fieldsPerColumn := CeilDiv(n, columns);
    groups := [];
    var i, startIndex := 0, 0;
    while i < columns
      invariant 0 <= i <= columns
      invariant startIndex == Start(fieldsPerColumn, i)
      invariant groups == Columns(entries, fieldsPerColumn, i)
    {
      var endIndex := Min(startIndex + fieldsPerColumn, n);
      var group := Slice(entries, startIndex, endIndex);
      ColumnAt(entries, fieldsPerColumn, i);
      groups := groups + [group];
      i, startIndex := i + 1, startIndex + fieldsPerColumn;
    }
    StartIsProduct(fieldsPerColumn, columns);
    ColumnsSpec(entries, fieldsPerColumn, columns);
  }

  /**
   * Enough groups to reach the end of the list hold every entry once, in
   * order, at most `q` to a group, and only the trailing ones are not full.
   */
  lemma ColumnsSpec(entries: Entries, q: nat, count: nat)
    requires Start(q, count) >= |entries|
    ensures var gs := Columns(entries, q, count);
      && (forall i :: 0 <= i < count ==> gs[i] == Column(entries, q, i) && |gs[i]| <= q)
      && Concat(gs) == entries
      && (forall i, j :: 0 <= i < j < count && gs[j] != [] ==> |gs[i]| == q)
  {
    var gs := Columns(entries, q, count);
    ColumnsAt(entries, q, count);
    ColumnsConcat(entries, q, count);
    assert entries[..|entries|] == entries;
    forall i, j | 0 <= i < j < count && gs[j] != [] ensures |gs[i]| == q {
      FullBeforeNonEmpty(entries, q, i, j);
    }
  }

  /** Where the `k`-th group starts when each holds `q` entries. */
  function Start(q: nat, k: nat): nat
    decreases k
  {
    if k == 0 then 0 else Start(q, k - 1) + q
  }

  /** The `k`-th group starts at `k * q`. */
  lemma {:induction false} StartIsProduct(q: nat, k: nat)
    ensures Start(q, k) == k * q
    decreases k
  {
    if k > 0 {
      StartIsProduct(q, k - 1);
    }
  }

  /** A later group never starts earlier than the end of an earlier one. */
  lemma {:induction false} StartMono(q: nat, i: nat, j: nat)
    requires i <= j
    ensures Start(q, i) <= Start(q, j)
    decreases j
  {
    if i < j {
      StartMono(q, i, j - 1);
    }
  }

  /**
   * The `k`-th group: the entries from `Start(q, k)` up to `Start(q, k + 1)`,
   * cut at the end of the list.
   */
  function Column(entries: Entries, q: nat, k: nat): (c: Entries)
    ensures |c| <= q
  {
    Slice(entries, Min(Start(q, k), |entries|), Min(Start(q, k + 1), |entries|))
  }

  /** The first `count` groups, in order. */
  function Columns(entries: Entries, q: nat, count: nat): (cs: seq<Entries>)
    ensures |cs| == count
    decreases count
  {
    if count == 0 then [] else Columns(entries, q, count - 1) + [Column(entries, q, count - 1)]
  }

  /** The first `count` groups, joined, are the entries before `Start(q, count)`. */
  lemma {:induction false} ColumnsConcat(entries: Entries, q: nat, count: nat)
    ensures Concat(Columns(entries, q, count)) == entries[..Min(Start(q, count), |entries|)]
    decreases count
  {
    if count > 0 {
      var gs := Columns(entries, q, count);
      assert gs[..count - 1] == Columns(entries, q, count - 1);
      ColumnsConcat(entries, q, count - 1);
      SliceStep(entries, Start(q, count - 1), q);
    }
  }

  /** The `k`-th of the first `count` groups is `Column(entries, q, k)`. */
  lemma {:induction false} ColumnsAt(entries: Entries, q: nat, count: nat)
    ensures |Columns(entries, q, count)| == count
    ensures forall k :: 0 <= k < count ==> Columns(entries, q, count)[k] == Column(entries, q, k)
    decreases count
  {
    if count > 0 {
      ColumnsAt(entries, q, count - 1);
    }
  }

  /** The slice the loop takes at `Start(q, i)` is the `i`-th group. */
  lemma ColumnAt(entries: Entries, q: nat, i: nat)
    ensures Column(entries, q, i) == Slice(entries, Start(q, i), Min(Start(q, i) + q, |entries|))
  {
  }

  /** Four fields in three columns: two, two, and an empty last column. */
  method FourInThree(a: (string, Json), b: (string, Json), c: (string, Json), d: (string, Json))
    returns (groups: seq<Entries>)
    ensures groups == [[a, b], [c, d], []]
  {
    groups := ColumnGroups([a, b, c, d], 3);
    assert CeilDiv(4, 3) == 2;
    assert Start(2, 1) == 2 && Start(2, 2) == 4 && Start(2, 3) == 6;
    assert groups[0] == [a, b] && groups[1] == [c, d] && groups[2] == [];
  }

  /** A group before a non-empty one is full: the empty groups all come last. */
  lemma FullBeforeNonEmpty(entries: Entries, q: nat, i: nat, j: nat)
    requires i < j && Column(entries, q, j) != []
    ensures |Column(entries, q, i)| == q
  {
    StartMono(q, i + 1, j);
  }

  /** The next slice continues the prefix covered so far. */
  lemma SliceStep<T>(es: seq<T>, start: nat, width: nat)
    ensures es[..Min(start, |es|)] + Slice(es, start, Min(start + width, |es|)) == es[..Min(start + width, |es|)]
  {
    var e := Min(start + width, |es|);
    if start < e {
      assert es[..start] + es[start..e] == es[..e];
    }
  }

  // ---------------------------------------------------------------------------
  // Type dispatch

  /** The field renderers of `renderFormField`. */
  datatype Renderer =
    | CheckboxField | SelectField | MultiSelectField | TextareaField | SpecialInputField
    | NumberField | ArrayField | ObjectField | TextInputField

  /** The `switch` of `renderFormField` on `fieldTypeConfig.type`, lib/components/JsonToFields.jsx:111-133. */
  function Dispatch(typ: Option<Json>): Renderer {
    if typ == Some(JStr("checkbox")) then CheckboxField
    else if typ == Some(JStr("select")) then SelectField
    else if typ == Some(JStr("multi-select")) then MultiSelectField
    else if typ == Some(JStr("textarea")) then TextareaField
    else if typ in {Some(JStr("email")), Some(JStr("url")), Some(JStr("date")), Some(JStr("password"))} then SpecialInputField
    else if typ == Some(JStr("number")) then NumberField
    else if typ == Some(JStr("array")) then ArrayField
    else if typ == Some(JStr("object")) then ObjectField
    else TextInputField
  }

  /** The type names the `switch` lists. */
  function HandledTypes(): set<string> {
    {"checkbox", "select", "multi-select", "textarea", "email", "url", "date", "password", "number", "array", "object"}
  }

  /**
   * The four special kinds share one renderer, and every type the `switch`
   * does not list, `undefined` and non-string types included, falls to the
   * text input.
   */
  lemma DispatchSpec(typ: Option<Json>)
    ensures Dispatch(typ) == SpecialInputField <==>
      typ in {Some(JStr("email")), Some(JStr("url")), Some(JStr("date")), Some(JStr("password"))}
    ensures Dispatch(typ) == TextInputField <==> !(typ.Some? && typ.value.JStr? && typ.value.s in HandledTypes())
  {
  }

  /** `renderFormField(key, value)`: the renderer picked for a field. */
  function FieldRenderer(key: string, value: Json, fieldConfig: Entries): Renderer {
    Dispatch(GetInputType(value, key, fieldConfig).typ)
  }

  /**
   * Without an override, a string field is shown by the text, textarea or
   * special-input renderer, and never by the select renderers.
   */
  lemma StringFieldRenderer(key: string, s: string, fieldConfig: Entries)
    requires !HasOverride(key, fieldConfig)
    ensures FieldRenderer(key, JStr(s), fieldConfig) in {TextInputField, TextareaField, SpecialInputField}
  {
  }

  /** An override with a type the `switch` does not know, such as `slider`, gets the text input. */
  lemma UnknownOverrideIsText(key: string, value: Json, fieldConfig: Entries, name: string)
    requires HasOverride(key, fieldConfig)
    requires Member(Get(fieldConfig, key).value, "type") == Some(JStr(name)) && name !in HandledTypes()
    ensures FieldRenderer(key, value, fieldConfig) == TextInputField
  {
    assert GetInputType(value, key, fieldConfig).typ == Some(JStr(name));
    DispatchSpec(Some(JStr(name)));
  }
}
