# json-fields in Dafny

A model of the data layer of the json-fields React widgets. The model covers:

- The flatten/unflatten codec that turns a nested JSON object into one level of dotted keys, and the rule that picks a form widget for a value. Both the `lib/` copy of `jsonUtils.js` and the older `src/` copy are modelled.
- The state machines of three components:
  - `JsonToFields`, the form editor;
  - `JsonToTable`, the table editor in `lib/` and the read-only viewer in `src/`;
  - `JsonToList`, the collapsible tree list with sections and grouping.
- The validation helpers of `src/utils/validation.js`.

JSON values are the datatype `JsonModel.Json`, with these choices:

- An object is an ordered sequence of key/value pairs. Flatten order and column order both follow key order.
- Assigning a property (`Put`) replaces the value in place when the key exists and appends it otherwise, as JavaScript does for string keys.
- `for..in` and `Object.keys` are `OwnEntries`. It gives the fields of an object and the index keys `"0"`, `"1"`, … of an array or a string.
- `JSON.parse` is a `string -> ParseResult` function that each session class is given.

The components work by updating their state step by step, so each one is a `class`:

- `FormSession` for `JsonToFields`;
- `TableSession` for the lib `JsonToTable`, with a `Row` class for the row objects that are shared between `tableData` and `editableData`;
- `ViewerSession` for the src `JsonToTable`;
- `ListState` for `JsonToList`.

Their methods modify the fields the component keeps in `useState`. Each method is specified against pure functions, and lemmas state the properties of those functions.

Files and modules:

- `json.dfy`, `JsonModel`: the JSON values, property assignment, own entries, and number formatting.
- `strings.dfy`, `JsStrings`: `split`, `join`, `trim`, character classes, and counting.
- `js_set.dfy`, `JsSet`: first-seen order of a JavaScript `Set` and the insertion loop that fills it.
- `lib_json_utils.dfy`, `LibJsonUtils`: `lib/utils/jsonUtils.js`.
- `src_json_utils.dfy`, `SrcJsonUtils`: `src/utils/jsonUtils.js`. Its `flattenObject`, `unflattenObject` and `getNestedLevel` are the same text as the lib copy, so they are modelled once, in `LibJsonUtils`.
- `json_to_fields.dfy`, `LibJsonToFields`: `lib/components/JsonToFields.jsx`.
- `lib_json_to_table.dfy`, `LibJsonToTable`: `lib/components/JsonToTable.jsx`.
- `src_json_to_table.dfy`, `SrcJsonToTable`: `src/components/JsonToTable.jsx`.
- `json_to_list.dfy`, `LibJsonToList`: `lib/components/JsonToList.jsx`.
- `validation.dfy`, `SrcValidation`: `src/utils/validation.js`.

Four behaviours of the code are stated as they are written, not as one might expect them:

- In the lib table, `handleCancel` does not undo a cell edit. The copied array holds the same row objects, so the edit is already in `tableData`. `LibJsonToTable.EditThenCancel` proves this.
- In `JsonToList`, a section whose `collapsible` is unset still gets a toggle button. Its items are shown whatever the toggle's state, because the body test is `!sec.collapsible || isOpen`. `LibJsonToList.CollapsibleShowsItems` proves this.
- The two `JsonToTable` copies word the non-tabular error differently. The lib copy says "JSON must be an object or array of objects"; the src copy says "JSON must be an array or object".
- The two `getInputType` copies differ, and each is modelled as written.

## Model

| member | source | states |
|---|---|---|
| LibJsonUtils.FlattenObject | lib/utils/jsonUtils.js:11-27 | the `for..in` loop with recursion and `Object.assign` computes exactly `Flatten(obj, prefix)`, the property assignments of the leaves in pre-order |
| LibJsonUtils.Assign | lib/utils/jsonUtils.js:19 | `Object.assign(target, source)` assigns the source's properties one by one, in order |
| LibJsonUtils.FlattenEmitsLeaves | lib/utils/jsonUtils.js:18-21 | no flattened value is an object; every emitted pair is a leaf of the input under its dotted path, with the value copied verbatim |
| LibJsonUtils.FlattenDistinct | lib/utils/jsonUtils.js:11-27 | the flattened map has each key once |
| LibJsonUtils.LeavesArePaths | lib/utils/jsonUtils.js:14-22 | each leaf key is the `.`-join of the source keys on the path to that leaf, and the leaves come in pre-order key order |
| LibJsonUtils.GetNestedLevel | lib/utils/jsonUtils.js:132-134 | the level of a key is its number of `.` characters |
| LibJsonUtils.NestedLevelIsDepth | lib/utils/jsonUtils.js:14-22 | when every source key, at every level, is non-empty and dot-free, the level of each flattened key is the depth of its leaf; repeated keys and empty nested objects do not matter |
| LibJsonUtils.UnflattenObject | lib/utils/jsonUtils.js:34-52 | the loop over the flat keys computes `Unflatten(flat)`, splitting each key on `.` and walking or creating intermediate objects |
| LibJsonUtils.RoundTrip | lib/utils/jsonUtils.js:11-52 | unflattening a flattened object gives the object back when its keys are non-empty and dot-free and no nested object is empty |
| LibJsonUtils.UnflattenFindsEveryKey | lib/utils/jsonUtils.js:37-49 | when no flat key is a dotted prefix of another, unflatten succeeds and each key's path in the result leads to that key's value |
| LibJsonUtils.SharedPrefixExample | lib/utils/jsonUtils.js:41-44 | keys `a.b` and `a.c` share one intermediate object `a` |
| LibJsonUtils.OverrideWins | lib/utils/jsonUtils.js:63-65 | with a truthy `fieldConfig[key]`, the result does not depend on the value and is that override's fields, with `type` taken from it |
| LibJsonUtils.NonStringTypes | lib/utils/jsonUtils.js:68-100 | without an override, non-strings ignore the key: booleans give `checkbox`, numbers `number`, arrays `array` with `items` set to the value, objects `object`, and null `text` |
| LibJsonUtils.StringPrecedence | lib/utils/jsonUtils.js:74-100 | for strings the first matching rule wins: over 100 characters gives `textarea` with 4 rows; then `@` or an `email` key gives `email`; then `http`/`url` gives `url`; then the date shape or a `date` key gives `date`; then a `password` key; else `text`; each result is stated as an if-and-only-if |
| LibJsonUtils.EmailBeatsUrlKey | lib/utils/jsonUtils.js:79-85 | an `@` string under a `url` key is still an email field |
| LibJsonUtils.UrlBeatsDateKey | lib/utils/jsonUtils.js:84-91 | an `http` string under a `date` key is a url field |
| LibJsonUtils.DateShapedString | lib/utils/jsonUtils.js:89-91 | `2024-01-31` gives a date field |
| LibJsonUtils.OverrideExample | lib/utils/jsonUtils.js:63-65 | an override of type `slider` is returned with its extra fields and without its `type` duplicated |
| LibJsonUtils.DisplayNameShape | lib/utils/jsonUtils.js:141-149 | the display name has no `_` or `-`, no whitespace at either end, and every word starts with a character that is not a lower-case letter |
| LibJsonUtils.CapitalizedWords | lib/utils/jsonUtils.js:147 | the word capitalisation keeps word starts and upper-cases each one |
| LibJsonUtils.TrimKeepsWordsCapitalized | lib/utils/jsonUtils.js:148 | trimming keeps every word capitalised |
| LibJsonUtils.DisplayNameOfLastSegment | lib/utils/jsonUtils.js:142-144 | only the last `.`-segment of the key matters |
| LibJsonUtils.DisplayNameSnakeCase | lib/utils/jsonUtils.js:141-149 | `first_name` is shown as `First Name` |
| LibJsonUtils.DisplayNameCamelCase | lib/utils/jsonUtils.js:141-149 | `user.firstName` is shown as `First Name` |
| SrcJsonUtils.InputTypeCases | src/utils/jsonUtils.js:59-67 | booleans give "checkbox", numbers "number", a string with `@` "email", another string in date shape "date", arrays "array", objects "object", everything else "text"; each as an if-and-only-if |
| SrcJsonUtils.AtBeatsDate | src/utils/jsonUtils.js:62-63 | the `@` test comes before the date pattern |
| SrcJsonUtils.DateExample | src/utils/jsonUtils.js:63 | `2024-01-31` gives "date" |
| SrcJsonUtils.AgreesWithLib | src/utils/jsonUtils.js:59-67 | without an override, the lib rule agrees with this one on non-strings, and on short strings that contain `@` |
| SrcJsonUtils.DisplayNameIsLastSegment | src/utils/jsonUtils.js:107-109 | the display name is the key's last `.`-segment verbatim: a dot-free suffix of the key that is the whole key or follows a `.`, so it is the whole key when there is no dot |
| SrcJsonUtils.LibFormatsThisSegment | src/utils/jsonUtils.js:107-109 | the lib display name is the lib formatting of this segment |
| LibJsonToFields.FormSession.constructor | lib/components/JsonToFields.jsx:36-44 | the initial state: the input holds `initialJson`, no data and no error |
| LibJsonToFields.FormSession.ParseJson | lib/components/JsonToFields.jsx:60-75 | on success `formData` and `originalFormData` are both the flattened value and `error` is empty; on failure `error` is the parser's message and both maps are `{}` |
| LibJsonToFields.FormSession.OnInitialJson | lib/components/JsonToFields.jsx:46-58 | a non-empty `initialJson` becomes the input text and is parsed: on success the parsed value is kept and both maps are its flattening, on failure the parsed value and both maps are cleared and the error is the parser's message; `''` clears the input, both maps, the parsed value and the error |
| LibJsonToFields.FormSession.SetJsonInput | lib/components/JsonToFields.jsx:485 | typing changes only the input text; both maps, the parsed value and the error stay |
| LibJsonToFields.FormSession.HandleFieldChange | lib/components/JsonToFields.jsx:77-88 | the new map differs from the old one only at `key`, which is appended when it was absent; `originalFormData` is unchanged; the callback gets the unflattened map |
| LibJsonToFields.FormSession.HandleMultiSelect | lib/components/JsonToFields.jsx:196-222 | the field becomes the toggled selection; `originalFormData`, the error, the input and the parsed value are unchanged; the callback gets the unflattened map |
| LibJsonToFields.FormSession.HandleSave | lib/components/JsonToFields.jsx:90-95 | `onSave` receives the unflattened form data and the flat copy |
| LibJsonToFields.FormSession.HandleCancel | lib/components/JsonToFields.jsx:97-102 | `formData` is set back to `originalFormData`; the original, the parsed value, the input and the error stay |
| LibJsonToFields.EditThenCancel | lib/components/JsonToFields.jsx:60-102 | parse, edit, then cancel leaves the form holding the flattened parsed value |
| LibJsonToFields.Remove | lib/components/JsonToFields.jsx:220 | unchecking removes every occurrence of the option and keeps every other value as often as it occurs |
| LibJsonToFields.RemoveSnoc | lib/components/JsonToFields.jsx:220 | `filter` keeps the order: a further value is kept at the end, or dropped when it is the option |
| LibJsonToFields.ToggleSpec | lib/components/JsonToFields.jsx:197-221 | checking appends the option at the end of the current selection; unchecking keeps exactly the other options, each as often as before and in the selection's order; a non-array value counts as `[]` |
| LibJsonToFields.UncheckUndoesCheck | lib/components/JsonToFields.jsx:217-221 | checking then unchecking an option that was not selected restores the selection |
| LibJsonToFields.CeilDiv | lib/components/JsonToFields.jsx:430 | `Math.ceil(n / columns)`: the least `q` with `q * columns >= n` |
| LibJsonToFields.ColumnGroups | lib/components/JsonToFields.jsx:414-437 | with one column there is one group of all entries; with `columns >= 2` there are exactly `columns` groups, each of at most `ceil(n/columns)` entries, whose concatenation is the entry list in order; group `i` is exactly the entries from `i * ceil(n/columns)` up to `(i + 1) * ceil(n/columns)` (`Column`), so every group before a non-empty one is full and the empty groups come last |
| LibJsonToFields.FourInThree | lib/components/JsonToFields.jsx:430-436 | four fields in three columns are grouped as two, two and none |
| LibJsonToFields.StartIsProduct | lib/components/JsonToFields.jsx:434 | the `i`-th group starts at `i * fieldsPerColumn` |
| LibJsonToFields.ColumnsSpec | lib/components/JsonToFields.jsx:430-436 | groups that reach the end of the list hold every entry once, in order, at most `fieldsPerColumn` to a group, and only trailing groups are not full |
| LibJsonToFields.FullBeforeNonEmpty | lib/components/JsonToFields.jsx:433-436 | a group before a non-empty group is full |
| LibJsonToFields.DispatchSpec | lib/components/JsonToFields.jsx:111-133 | `email`, `url`, `date` and `password` share the special input; a type not handled, such as `slider` or `tags`, gets the text input |
| LibJsonToFields.StringFieldRenderer | lib/components/JsonToFields.jsx:106-133 | without an override, a string field is a text input, a textarea or a special input |
| LibJsonToFields.UnknownOverrideIsText | lib/components/JsonToFields.jsx:111-133 | an override with an unknown type is rendered as a text input |
| LibJsonToTable.ClassifyCases | lib/components/JsonToTable.jsx:51-81 | the input is blank, invalid with the parser's message, an empty array, a table of the array's items or of the one object, or not tabular; each case as an if-and-only-if on the input and the parse |
| LibJsonToTable.Message | lib/components/JsonToTable.jsx:55-79 | the error is empty exactly when there is a table |
| LibJsonToTable.TableSession.constructor | lib/components/JsonToTable.jsx:30-33 | the initial state: no table, no rows, no error |
| LibJsonToTable.TableSession.ParseJson | lib/components/JsonToTable.jsx:51-81 | `error` is the classification's message; a table gets fresh row objects holding the rows, shared by `tableData` and `editableData`; otherwise `tableData` is null |
| LibJsonToTable.TableSession.OnInitialJson | lib/components/JsonToTable.jsx:44-49 | a non-empty `initialJson` is copied into the input and parsed: the error is the classification's message; a table keeps exactly the classified rows, anything else leaves no table and the editable copy as it was; `''` changes nothing |
| LibJsonToTable.TableSession.SetJsonInput | lib/components/JsonToTable.jsx:208 | typing changes only the input text |
| LibJsonToTable.TableSession.Generate | lib/components/JsonToTable.jsx:224 | "Generate Table" parses the text in the box: the error is its classification's message, and a table holds its rows |
| LibJsonToTable.TypeThenGenerate | lib/components/JsonToTable.jsx:51-81 | typing a text and generating shows no error exactly when the text is a table |
| LibJsonToTable.TableSession.LoadSample | lib/components/JsonToTable.jsx:109-112 | the sample text is put in the input and parsed: the error is the classification's message; a table keeps exactly the classified rows, anything else leaves no table and the editable copy as it was |
| LibJsonToTable.TableSession.HandleCellEdit | lib/components/JsonToTable.jsx:83-91 | the edit succeeds exactly when the row exists and is an object; it changes only that row's `key`, and neither the error nor the input; because the row object is shared, `tableData` sees the change |
| LibJsonToTable.TableSession.HandleCancel | lib/components/JsonToTable.jsx:100-107 | with a table, `editableData` lists the same row objects as `tableData` again |
| LibJsonToTable.TableSession.HandleSave | lib/components/JsonToTable.jsx:93-98 | with `onSave` and rows, it passes the rows and a list of the same length holding a shallow copy of each row; otherwise nothing |
| LibJsonToTable.TableSession.GetColumns | lib/components/JsonToTable.jsx:114-123 | the loop computes `Columns` of the rows' current values |
| LibJsonToTable.ColumnsSpec | lib/components/JsonToTable.jsx:114-123 | no data gives `[]`; a null row makes `Object.keys` throw; otherwise the columns are the union of the rows' keys, each once, in first-seen order |
| LibJsonToTable.MakeRows | lib/components/JsonToTable.jsx:68-73 | the rows are distinct fresh objects holding the items |
| LibJsonToTable.EditThenCancel | lib/components/JsonToTable.jsx:83-107 | after a cell edit and a cancel, the edit is still in `tableData` and `editableData` lists the same rows |
| LibJsonToTable.UniformColumns | lib/components/JsonToTable.jsx:114-123 | rows that all have the same keys give those keys as columns |
| LibJsonToTable.SampleColumns | lib/components/JsonToTable.jsx:37-42 | the sample's columns are `id`, `name`, `email`, `role`, `salary` |
| SrcJsonToTable.Message | src/components/JsonToTable.jsx:30-60 | the error is empty exactly when there is a table; only the non-tabular message differs from the lib copy |
| SrcJsonToTable.HeadersSpec | src/components/JsonToTable.jsx:83-95 | no data gives `[]`; otherwise the headers are the keys of the object items, each once, in first-seen order; null and scalar items add none |
| SrcJsonToTable.GetTableHeaders | src/components/JsonToTable.jsx:83-95 | the `forEach` filling a `Set` computes `Headers` |
| SrcJsonToTable.ViewerSession.constructor | src/components/JsonToTable.jsx:19-21 | the initial state: empty input, no table, no error |
| SrcJsonToTable.ViewerSession.SetJsonInput | src/components/JsonToTable.jsx:165 | typing changes only the input text |
| SrcJsonToTable.ViewerSession.ParseJson | src/components/JsonToTable.jsx:30-60 | `error` is the classification's message; a non-empty array is stored unchanged and an object as `[parsed]`; otherwise there is no table |
| SrcJsonToTable.ViewerSession.ClearAll | src/components/JsonToTable.jsx:62-66 | the input, the table and the error are cleared |
| SrcJsonToTable.ViewerSession.LoadSample | src/components/JsonToTable.jsx:68-72 | the input holds the sample; the table and the error are cleared |
| SrcJsonToTable.ClearThenParse | src/components/JsonToTable.jsx:30-66 | parsing after `clearAll` reports blank input |
| LibJsonToList.IsParentCases | lib/components/JsonToList.jsx:112 | an item with a non-empty `children` array is a parent; an empty array, an object, a missing `children` or an array item is not |
| LibJsonToList.ListState.ClickRow | lib/components/JsonToList.jsx:144-149 | a click toggles a parent's id and changes nothing for a leaf; afterwards the row is open exactly when it is a parent whose id was not in the set |
| LibJsonToList.GetIdSpec | lib/components/JsonToList.jsx:113 | the item's `id` is used unless it is null or missing, falsy ids included; otherwise the id is the path followed by the index |
| LibJsonToList.FallbackIdsDistinct | lib/components/JsonToList.jsx:113 | two fallback ids under one path at different indices differ |
| LibJsonToList.RowIdSpec | lib/components/JsonToList.jsx:143 | a row keeps its own non-null `id`; otherwise its id is the parent path, the depth, `-` and the index |
| LibJsonToList.ChildRowId | lib/components/JsonToList.jsx:143-180 | an id-less child of an open row has the id `<parent id>-<depth>-<index>` |
| LibJsonToList.ChildRowIdsDistinct | lib/components/JsonToList.jsx:143-180 | two id-less children of one row at different indices get different ids |
| LibJsonToList.Flip | lib/components/JsonToList.jsx:134-135 | the id's membership is flipped and every other id keeps its membership |
| LibJsonToList.FlipTwice | lib/components/JsonToList.jsx:132-139 | flipping twice restores the set |
| LibJsonToList.ListState.constructor | lib/components/JsonToList.jsx:109-110 | both sets start empty |
| LibJsonToList.ListState.Toggle | lib/components/JsonToList.jsx:132-139 | `openIds` has the id's membership flipped, and the reported state is the new membership |
| LibJsonToList.ListState.ToggleSection | lib/components/JsonToList.jsx:192-196 | `openSectionIds` has the id's membership flipped; the row set is unchanged |
| LibJsonToList.ToggleTwice | lib/components/JsonToList.jsx:132-139 | toggling an item twice restores both sets |
| LibJsonToList.IsOpenXor | lib/components/JsonToList.jsx:190-191 | a section is open exactly when its baseline differs from its membership in the set |
| LibJsonToList.ToggleFlipsOneSection | lib/components/JsonToList.jsx:192-196 | toggling a section id flips that section's open state and no other |
| LibJsonToList.HeaderAgrees | lib/components/JsonToList.jsx:219-221 | the header's arrow and the section body compute the same baseline |
| LibJsonToList.CollapsibleShowsItems | lib/components/JsonToList.jsx:219-226 | an unset `collapsible` shows a toggle, yet the items are always shown; `collapsible: true` shows them exactly when the section is open |
| LibJsonToList.ListState.RenderSections | lib/components/JsonToList.jsx:214-275 | the sections the list shows are `View` of the data, the props and the open set |
| LibJsonToList.SectionsWin | lib/components/JsonToList.jsx:216-229 | non-empty `sections` win over `groupBy`, with one view per section listing the data items its filter keeps, in data order and as often as they occur, so an item can be in several sections |
| LibJsonToList.FilterSnoc | lib/components/JsonToList.jsx:222 | `filter` keeps the order: a further item is kept at the end, or dropped |
| LibJsonToList.FilterCounts | lib/components/JsonToList.jsx:222 | a kept item occurs as often as in the data, a dropped one not at all |
| LibJsonToList.GroupByWithoutSections | lib/components/JsonToList.jsx:239-264 | without sections, `groupBy` gives one toggleable section per title, open unless its id is in the set, with its items shown exactly when open |
| LibJsonToList.PlainListShowsAll | lib/components/JsonToList.jsx:267-274 | without sections or `groupBy`, every item is listed in order |
| LibJsonToList.GroupBuckets | lib/components/JsonToList.jsx:240-245 | the buckets are keyed by `groupBy(item) ?? 'Other'` in first-seen order, and each holds its items in data order |
| LibJsonToList.BucketSpec | lib/components/JsonToList.jsx:241-244 | a bucket holds exactly the items with its key |
| LibJsonToList.BucketsPartition | lib/components/JsonToList.jsx:240-245 | the buckets together hold as many items as the data: each item is in exactly one |
| LibJsonToList.TitlesSpec | lib/components/JsonToList.jsx:246 | with a non-empty `sectionOrder`, the titles are its entries that have a bucket, in its order and as often as it names them; otherwise they are every bucket |
| LibJsonToList.OrderRepeatsTitle | lib/components/JsonToList.jsx:246-257 | with `sectionOrder`, a title it names twice gives two sections with the same items |
| LibJsonToList.OrderHidesBucket | lib/components/JsonToList.jsx:246-257 | with `sectionOrder`, a bucket it does not name is not shown, so its items are in no section |
| LibJsonToList.GroupsCoverData | lib/components/JsonToList.jsx:240-264 | without `sectionOrder`, every item is in the section titled with its key |
| LibJsonToList.GroupTitlesDistinct | lib/components/JsonToList.jsx:246 | without `sectionOrder`, no two group sections share a title |
| LibJsonToList.GroupItemsBelong | lib/components/JsonToList.jsx:246-257 | with or without `sectionOrder`, a group section holds only data items whose key is its title |
| LibJsonToList.ItemInItsBucket | lib/components/JsonToList.jsx:240-246 | an item's key is a title, and the item is in that title's bucket |
| LibJsonToList.GroupIdsDistinct | lib/components/JsonToList.jsx:248 | group section ids are pairwise different |
| SrcValidation.MaxNat | src/utils/validation.js:131-139 | the running maximum bounds every element and is one of them |
| SrcValidation.HeightIsLongestPath | src/utils/validation.js:131-143 | the height of a container is one more than its highest child, and 0 when it is empty |
| SrcValidation.ValidateJsonDepth | src/utils/validation.js:118-144 | valid exactly when `currentDepth` plus the height stays within `maxDepth`, reporting that depth; a scalar or null reports `currentDepth`; otherwise the depth of the first node too deep, with the message |
| SrcValidation.ValidateChildren | src/utils/validation.js:131-143 | the loop over the own entries of a container within bounds: valid exactly when the deepest child fits, reporting `currentDepth` plus the height; otherwise the first failing child's result, `maxDepth + 1` with the message |
| SrcValidation.ValidateFromRoot | src/utils/validation.js:118-144 | from depth 0, valid exactly when the height is at most `maxDepth`; an invalid result reports `maxDepth + 1` |
| SrcValidation.FieldNameSpec | src/utils/validation.js:168-172 | a field name is valid exactly when it is non-empty and each character is an ASCII letter, a digit, `.`, `_` or `-` |
| SrcValidation.EmailSpec | src/utils/validation.js:67-70 | valid exactly when the address is `L@X.Y` with `L`, `X` and `Y` non-empty and free of whitespace and `@` |
| SrcValidation.EmailHasOneAt | src/utils/validation.js:67-70 | a valid address holds exactly one `@` |
| SrcValidation.RemoveControls | src/utils/validation.js:57 | the result holds exactly the characters of the input that are not stripped control characters |
| SrcValidation.RemoveControlsConcat | src/utils/validation.js:57 | removal works character by character: the result for `s + t` is the result for `s` followed by the result for `t`, so the kept characters stay in their order |
| SrcValidation.RemoveControlsOne | src/utils/validation.js:57 | one stripped control character gives `''`; any other character is kept |
| SrcValidation.RemoveControlsKeeps | src/utils/validation.js:57 | tab, line feed, carriage return and every other kept character occur as often as before |
| SrcValidation.SanitizeSpec | src/utils/validation.js:47-60 | a non-string gives `''`; the output has no stripped control character and no whitespace at either end; it is the control-free input with the ends trimmed |
| SrcValidation.SanitizeIdempotent | src/utils/validation.js:47-60 | sanitizing twice gives the same result as sanitizing once |

## Left out

- Rendering: the JSX, styles, icons, hover state and the UI adapters of `lib/utils/uiAdapters.js` are not modelled. Only the data each component selects for display is modelled.
- `JSON.parse` is a parameter: `JSON.stringify`, the prettify and format buttons, and the re-parse of array and object fields are not modelled. So no format/parse property is claimed.
- Numbers are integers. Floats, `parseFloat(...) || 0`, `isSafeNumber`, `formatBytes`, `validateJsonSize` (which uses `Blob`), `isValidDate` (which uses `Date`) and `isValidUrl` (which uses the `URL` constructor) are left out.
- String lengths count characters, not UTF-16 code units, and case mapping covers ASCII letters only.
- `undefined` and inherited prototype properties are not modelled. A missing key is `None`; a present `null` is `JNull`.
- JavaScript lists integer-like keys first. The model keeps keys in the order of the pairs.
- `hasNoCircularReferences` is not modelled: a datatype value cannot contain itself.
- LibJsonUtils.UnflattenObject: the inner `current`-pointer walk is modelled on values (`SetPath`), not as aliasing of nested objects. A walk that meets a truthy non-object gives `None`, where the source throws for a primitive; for an array the source would write a property onto it, and that case is not modelled.
- LibJsonToTable.TableSession.HandleCellEdit: four cases count as a failed edit that changes nothing. A row that is an array: the source would set a property on it. A primitive row: the source throws. A null `editableData`: `[...null]` throws. A `rowIndex` out of range: `undefined[key]` throws.
- The `onFieldChange`, `onSave`, `onCancel`, `onToggle` and `onItemClick` callbacks are modelled as the values they receive, returned by the method, or left out where they only notify.
- LibJsonToList: `getId` on `null` throws in the source; the model requires items that are not `null`. JavaScript `Set` and `Map` compare object ids by identity; the model compares values. The nested rows of an open parent are rendered recursively by the `Row` component; only their ids (`RowId`, `ChildPath`, with `RowIdSpec`, `ChildRowId` and `ChildRowIdsDistinct`) are modelled.
- LibJsonToFields.HandleMultiSelect: the source's `!==` compares objects by identity; the model compares values.
- LibJsonToFields.ColumnGroups: `columns` is an integer; fractional column counts are not modelled.
- Pagination, form sections, `includeUnsectioned`, and the slider, tags and key-value-list widgets are passed by the demo but not handled by the components, so they are not modelled. The storage helper, the debounce hook and the demo application `src/App.jsx` are not part of this model either.
