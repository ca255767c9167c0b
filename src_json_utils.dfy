/**
 * The older copy of the utilities, src/utils/jsonUtils.js.
 *
 * Its `flattenObject`, `unflattenObject` and `getNestedLevel` are the same
 * code as the lib copy and are modelled once, in `LibJsonUtils`. What
 * differs is `getInputType`, which returns a bare type name and looks at the
 * value only, and `getDisplayName`, which returns the last segment as is.
 */
module SrcJsonUtils {
  import opened JsonModel
  import opened JsStrings
  import Lib = LibJsonUtils

  /** `getInputType(value)`, src/utils/jsonUtils.js:59-67 */
  function GetInputType(value: Json): string {
    match value
    case JBool(_) => "checkbox"
    case JNum(_) => "number"
    case JStr(s) =>
      if '@' in s then "email"
      else if Lib.IsDateShaped(s) then "date"
      else "text"
    case JArr(_) => "array"
    case JObj(_) => "object"
    case JNull => "text"
  }

  /**
   * Each name is chosen by the value's JavaScript type, and for strings by
   * the `@` test first and the date pattern second.
   */
  lemma InputTypeCases(value: Json)
    ensures GetInputType(value) == "checkbox" <==> value.JBool?
    ensures GetInputType(value) == "number" <==> value.JNum?
    ensures GetInputType(value) == "array" <==> value.JArr?
    ensures GetInputType(value) == "object" <==> value.JObj?
    ensures GetInputType(value) == "email" <==> value.JStr? && '@' in value.s
    ensures GetInputType(value) == "date" <==> value.JStr? && '@' !in value.s && Lib.IsDateShaped(value.s)
    ensures GetInputType(value) == "text" <==>
      value.JNull? || (value.JStr? && '@' !in value.s && !Lib.IsDateShaped(value.s))
  {
  }

  /**
   * Where the two copies agree: without an override, the lib copy picks the
   * same type name for every non-string, and for a string of at most 100
   * characters that contains `@`.
   */
  lemma AgreesWithLib(value: Json, key: string, fieldConfig: Entries)
    requires !Lib.HasOverride(key, fieldConfig)
    ensures !value.JStr? ==> Lib.GetInputType(value, key, fieldConfig).typ == Some(JStr(GetInputType(value)))
    ensures value.JStr? && |value.s| <= 100 && GetInputType(value) == "email" ==>
      Lib.GetInputType(value, key, fieldConfig) == Lib.Kind("email")
  {
  }

  /** The `@` test runs before the date pattern: any string with an `@` is an email. */
  lemma AtBeatsDate(s: string)
    requires '@' in s
    ensures GetInputType(JStr(s)) == "email"
  {
  }

  lemma DateExample()
    ensures GetInputType(JStr("2024-01-31")) == "date"
  {
    assert Lib.IsDateShaped("2024-01-31");
    assert '@' !in "2024-01-31";
  }

  /** `getDisplayName(key)`, src/utils/jsonUtils.js:107-109 */
  function GetDisplayName(key: string): string {
    Last(Split(key, '.'))
  }

  /**
   * The display name is the text after the last dot, unchanged: a dot-free
   * suffix of the key that is either the whole key or preceded by a dot.
   */
  lemma DisplayNameIsLastSegment(key: string)
    ensures '.' !in GetDisplayName(key)
    ensures |GetDisplayName(key)| <= |key| && key[|key| - |GetDisplayName(key)|..] == GetDisplayName(key)
    ensures |GetDisplayName(key)| < |key| ==> key[|key| - |GetDisplayName(key)| - 1] == '.'
    ensures '.' !in key ==> GetDisplayName(key) == key
  {
    SplitPiecesNoSep(key, '.');
    LastSplitSuffix(key, '.');
    LastSplitAfterLastSep(key, '.');
    if '.' !in key {
      SplitNoSep(key, '.');
    }
  }

  /** The lib copy formats exactly the segment this copy returns. */
  lemma LibFormatsThisSegment(key: string)
    ensures Lib.GetDisplayName(key) == Lib.GetDisplayName(GetDisplayName(key))
  {
    SplitPiecesNoSep(key, '.');
    SplitNoSep(GetDisplayName(key), '.');
  }
}
