/**
 * The input checks of src/utils/validation.js: the nesting-depth check, the
 * field-name and e-mail patterns, and the control-character sanitiser.
 */
module SrcValidation {
  import opened JsonModel
  import opened JsStrings

  // ---------------------------------------------------------------------------
  // validateJsonDepth

  /** `typeof v === 'object' && v !== null`: arrays and objects. */
  predicate IsContainer(v: Json) {
    v.JObj? || v.JArr?
  }

  /** The largest element, `0` for none. */
  function MaxNat(s: seq<nat>): (m: nat)
    ensures forall i :: 0 <= i < |s| ==> s[i] <= m
    ensures s == [] ==> m == 0
    ensures s != [] ==> exists i :: 0 <= i < |s| && s[i] == m
    decreases |s|
  {
    if s == [] then 0
    else
      var p := MaxNat(s[..|s| - 1]);
      if s[|s| - 1] > p then s[|s| - 1] else p
  }

  /**
   * The number of steps on the longest path from `v` down to a scalar or an
   * empty container.
   */
  function Height(v: Json): nat {
    match v
    case JObj(fs) => MaxNat(seq(|fs|, i requires 0 <= i < |fs| => 1 + Height(fs[i].1)))
    case JArr(items) => MaxNat(seq(|items|, i requires 0 <= i < |items| => 1 + Height(items[i])))
    case _ => 0
  }

  /** The steps down each own entry, in the order `for..in` visits them. */
  function ChildSteps(v: Json): (hs: seq<nat>)
    requires IsContainer(v)
    ensures |hs| == |OwnEntries(v)|
    ensures forall i :: 0 <= i < |hs| ==> hs[i] == 1 + Height(OwnEntries(v)[i].1)
    ensures MaxNat(hs) == Height(v)
  {
    if v.JObj? then seq(|v.fields|, i requires 0 <= i < |v.fields| => 1 + Height(v.fields[i].1))
    else seq(|v.items|, i requires 0 <= i < |v.items| => 1 + Height(v.items[i]))
  }

  /**
   * The height is the longest path: every child is at least one step lower,
   * and a non-empty container has a child exactly one step lower.
   */
  lemma HeightIsLongestPath(v: Json)
    requires IsContainer(v)
    ensures forall i :: 0 <= i < |OwnEntries(v)| ==> 1 + Height(OwnEntries(v)[i].1) <= Height(v)
    ensures OwnEntries(v) == [] ==> Height(v) == 0
    ensures OwnEntries(v) != [] ==> exists i :: 0 <= i < |OwnEntries(v)| && 1 + Height(OwnEntries(v)[i].1) == Height(v)
  {
    var hs := ChildSteps(v);
    if OwnEntries(v) != [] {
      var i :| 0 <= i < |hs| && hs[i] == MaxNat(hs);
      assert 1 + Height(OwnEntries(v)[i].1) == Height(v);
    }
  }

  lemma MaxNatSnoc(s: seq<nat>, i: nat)
    requires i < |s|
    ensures MaxNat(s[..i + 1]) == if s[i] > MaxNat(s[..i]) then s[i] else MaxNat(s[..i])
  {
    assert s[..i + 1][..i] == s[..i];
  }

  lemma ChildBelow(v: Json, i: nat)
    requires IsContainer(v) && i < |OwnEntries(v)|
    ensures OwnEntries(v)[i].1 < v
  {
    if v.JObj? {
      assert v.fields[i] == OwnEntries(v)[i];
    } else {
      assert v.items[i] == OwnEntries(v)[i].1;
    }
  }

  /** The `i`-th own entry is a smaller value, one step below, and no higher than its container allows. */
  lemma ChildStep(v: Json, i: nat)
    requires IsContainer(v) && i < |OwnEntries(v)|
    ensures OwnEntries(v)[i].1 < v
    ensures ChildSteps(v)[i] == 1 + Height(OwnEntries(v)[i].1) <= Height(v)
  {
    ChildBelow(v, i);
  }

  /** The largest step down among the first `i` own entries. */
  function StepsSoFar(v: Json, i: nat): nat
    requires IsContainer(v) && i <= |OwnEntries(v)|
  {
    MaxNat(ChildSteps(v)[..i])
  }

  /** What `validateJsonDepth` returns; `message` is absent on success. */
  datatype DepthResult = DepthResult(valid: bool, depth: int, message: Option<string>)

  function DepthMessage(maxDepth: int): string {
    "JSON structure exceeds maximum depth of " + IntToString(maxDepth)
  }

  /**
   * `validateJsonDepth(obj, maxDepth, currentDepth)`, src/utils/validation.js:118-144:
   * valid exactly when the deepest node lies within `maxDepth`, reporting
   * that depth; otherwise the depth of the first node found too deep.
   */
  method ValidateJsonDepth(obj: Json, maxDepth: int, currentDepth: int) returns (r: DepthResult)
    ensures r.valid <==> currentDepth + Height(obj) <= maxDepth
    ensures r.valid ==> r.depth == currentDepth + Height(obj) && r.message.None?
    ensures !r.valid ==>
      && r.depth == (if currentDepth > maxDepth then currentDepth else maxDepth + 1)
      && r.message == Some(DepthMessage(maxDepth))
    ensures r.valid ==> r.depth <= maxDepth
    ensures !IsContainer(obj) && currentDepth <= maxDepth ==> r == DepthResult(true, currentDepth, None)
    decreases obj, 1
  {
    if currentDepth > maxDepth {
      return DepthResult(false, currentDepth, Some(DepthMessage(maxDepth)));
    }
    if !IsContainer(obj) {
      return DepthResult(true, currentDepth, None);
    }
    r := ValidateChildren(obj, maxDepth, currentDepth);
  }

  /**
   * The `for..in` loop of `validateJsonDepth`, src/utils/validation.js:131-143:
   * each own entry is checked one level down, the first failure is returned
   * as it is, and otherwise the deepest depth found is reported.
   */
  method ValidateChildren(obj: Json, maxDepth: int, currentDepth: int) returns (r: DepthResult)
    requires IsContainer(obj) && currentDepth <= maxDepth
    ensures r.valid <==> currentDepth + Height(obj) <= maxDepth
    ensures r.valid ==> r.depth == currentDepth + Height(obj) && r.message.None?
    ensures !r.valid ==> r.depth == maxDepth + 1 && r.message == Some(DepthMessage(maxDepth))
    decreases obj, 0
  {
    var es := OwnEntries(obj);
    var maxFoundDepth := currentDepth;
    var i := 0;
    while i < |es|
      invariant 0 <= i <= |es|
      invariant maxFoundDepth == currentDepth + StepsSoFar(obj, i)
      invariant maxFoundDepth <= maxDepth
    {
      var child := es[i].1;
      ChildBelow(obj, i);
      var result := ValidateJsonDepth(child, maxDepth, currentDepth + 1);
      if !result.valid {
        ChildTooDeep(obj, i, child, maxDepth, currentDepth);
        return result;
      }
      ChildWithin(obj, i, child, currentDepth, maxFoundDepth);
      maxFoundDepth := if maxFoundDepth >= result.depth then maxFoundDepth else result.depth;
      i := i + 1;
    }
    AllChildrenWithin(obj);
    return DepthResult(true, maxFoundDepth, None);
  }

  /** A child too deep makes its container too deep. */
  lemma ChildTooDeep(obj: Json, i: nat, child: Json, maxDepth: int, currentDepth: int)
    requires IsContainer(obj) && i < |OwnEntries(obj)| && child == OwnEntries(obj)[i].1
    requires currentDepth + 1 + Height(child) > maxDepth
    ensures currentDepth + Height(obj) > maxDepth
  {
    ChildStep(obj, i);
  }

  /** The running maximum after one more child. */
  lemma ChildWithin(obj: Json, i: nat, child: Json, currentDepth: int, maxFoundDepth: int)
    requires IsContainer(obj) && i < |OwnEntries(obj)| && child == OwnEntries(obj)[i].1
    ensures var d := currentDepth + 1 + Height(child);
      maxFoundDepth == currentDepth + StepsSoFar(obj, i) ==>
      (if maxFoundDepth >= d then maxFoundDepth else d) == currentDepth + StepsSoFar(obj, i + 1)
  {
    ChildStep(obj, i);
    MaxNatSnoc(ChildSteps(obj), i);
  }

  /** Once every child is seen, the running maximum is the container's height. */
  lemma AllChildrenWithin(obj: Json)
    requires IsContainer(obj)
    ensures StepsSoFar(obj, |OwnEntries(obj)|) == Height(obj)
  {
    assert ChildSteps(obj)[..|OwnEntries(obj)|] == ChildSteps(obj);
  }

  /**
   * `validateJsonDepth(obj, maxDepth)` with the default start of `0`: a
   * failing check always reports `maxDepth + 1`.
   */
  method ValidateFromRoot(obj: Json, maxDepth: int) returns (r: DepthResult)
    requires maxDepth >= 0
    ensures r.valid <==> Height(obj) <= maxDepth
    ensures r.valid ==> r.depth == Height(obj)
    ensures !r.valid ==> r.depth == maxDepth + 1 && r.message == Some(DepthMessage(maxDepth))
  {
    r := ValidateJsonDepth(obj, maxDepth, 0);
  }

  // ---------------------------------------------------------------------------
  // isValidFieldName

  /** `[a-zA-Z0-9._-]` */
  predicate IsFieldNameChar(c: char) {
    IsAsciiUpper(c) || IsAsciiLower(c) || IsDigit(c) || c == '.' || c == '_' || c == '-'
  }

  /** The regular expression `[a-zA-Z0-9._-]*` read from the left. */
  function FieldNameTail(s: string): bool
    decreases |s|
  {
    s == [] || (IsFieldNameChar(s[0]) && FieldNameTail(s[1..]))
  }

  /** `isValidFieldName(fieldName)`, src/utils/validation.js:168-172: `^[a-zA-Z0-9._-]+$` */
  function IsValidFieldName(fieldName: string): bool {
    fieldName != [] && IsFieldNameChar(fieldName[0]) && FieldNameTail(fieldName[1..])
  }

  lemma {:induction false} FieldNameTailSpec(s: string)
    ensures FieldNameTail(s) <==> forall k :: 0 <= k < |s| ==> IsFieldNameChar(s[k])
    decreases |s|
  {
    if s != [] {
      FieldNameTailSpec(s[1..]);
      assert forall k :: 1 <= k < |s| ==> s[k] == s[1..][k - 1];
    }
  }

  /** A field name is valid exactly when it is non-empty and made only of the allowed characters. */
  lemma FieldNameSpec(fieldName: string)
    ensures IsValidFieldName(fieldName) <==>
      fieldName != [] && forall k :: 0 <= k < |fieldName| ==> IsFieldNameChar(fieldName[k])
  {
    if fieldName != [] {
      FieldNameTailSpec(fieldName[1..]);
      assert forall k :: 1 <= k < |fieldName| ==> fieldName[k] == fieldName[1..][k - 1];
    }
  }

  // ---------------------------------------------------------------------------
  // isValidEmail

  /** `[^\s@]` */
  predicate IsEmailChar(c: char) {
    !IsJsWhitespace(c) && c != '@'
  }

  predicate AllEmailChars(s: string) {
    forall k :: 0 <= k < |s| ==> IsEmailChar(s[k])
  }

  /** The first position of `c` in `s`, if any. */
  function IndexOf(s: string, c: char): (r: Option<nat>)
    ensures r.Some? ==> r.value < |s| && s[r.value] == c && c !in s[..r.value]
    ensures r.None? ==> c !in s
  {
    if s == [] then None
    else if s[0] == c then Some(0)
    else match IndexOf(s[1..], c)
      case Some(i) => (assert s[..i + 1] == [s[0]] + s[1..][..i]; Some(i + 1))
      case None => None
  }

  /**
   * `isValidEmail(email)`, src/utils/validation.js:67-70, as the pattern
   * `^[^\s@]+@[^\s@]+\.[^\s@]+$` decides it: the part before the first `@`
   * is non-empty, nothing else is whitespace or `@`, and after the `@` a dot
   * has at least one character on each side.
   */
  function IsValidEmail(email: string): bool {
    match IndexOf(email, '@')
    case None => false
    case Some(at) =>
      var rest := email[at + 1..];
      at > 0 && AllEmailChars(email[..at]) && AllEmailChars(rest)
      && |rest| >= 3 && '.' in rest[1..|rest| - 1]
  }

  /** The shape the pattern describes: `L@X.Y` with three non-empty parts free of whitespace and `@`. */
  ghost predicate EmailShape(email: string) {
    exists i, j :: 0 < i && i + 1 < j && j + 1 < |email| && email[i] == '@' && email[j] == '.'
      && AllEmailChars(email[..i]) && AllEmailChars(email[i + 1..j]) && AllEmailChars(email[j + 1..])
  }

  /** The decision procedure accepts exactly the strings of the pattern's shape. */
  lemma EmailSpec(email: string)
    ensures IsValidEmail(email) <==> EmailShape(email)
  {
    if IsValidEmail(email) {
      EmailSound(email);
    }
    if EmailShape(email) {
      var i, j :| 0 < i && i + 1 < j && j + 1 < |email| && email[i] == '@' && email[j] == '.'
        && AllEmailChars(email[..i]) && AllEmailChars(email[i + 1..j]) && AllEmailChars(email[j + 1..]);
      EmailComplete(email, i, j);
    }
  }

  lemma AllEmailCharsSlice(s: string, a: nat, b: nat)
    requires AllEmailChars(s) && a <= b <= |s|
    ensures AllEmailChars(s[a..b])
  {
    assert forall k :: 0 <= k < b - a ==> s[a..b][k] == s[a + k];
  }

  lemma EmailSound(email: string)
    requires IsValidEmail(email)
    ensures EmailShape(email)
  {
    var at := IndexOf(email, '@').value;
    var rest := email[at + 1..];
    var mid := rest[1..|rest| - 1];
    var k :| 0 <= k < |mid| && mid[k] == '.';
    var j := at + 2 + k;
    assert email[j] == mid[k];
    AllEmailCharsSlice(rest, 0, k + 1);
    AllEmailCharsSlice(rest, k + 2, |rest|);
    assert email[at + 1..j] == rest[..k + 1];
    assert email[j + 1..] == rest[k + 2..];
    assert 0 < at && at + 1 < j && j + 1 < |email| && email[at] == '@' && email[j] == '.'
      && AllEmailChars(email[..at]) && AllEmailChars(email[at + 1..j]) && AllEmailChars(email[j + 1..]);
  }

  lemma EmailComplete(email: string, i: nat, j: nat)
    requires 0 < i && i + 1 < j && j + 1 < |email| && email[i] == '@' && email[j] == '.'
    requires AllEmailChars(email[..i]) && AllEmailChars(email[i + 1..j]) && AllEmailChars(email[j + 1..])
    ensures IsValidEmail(email)
  {
    var at := IndexOf(email, '@');
    assert '@' !in email[..i] by {
      forall k | 0 <= k < i ensures email[..i][k] != '@' {
        assert IsEmailChar(email[..i][k]);
      }
    }
    assert at == Some(i);
    var rest := email[i + 1..];
    assert AllEmailChars(rest) by {
      forall k | 0 <= k < |rest| ensures IsEmailChar(rest[k]) {
        if i + 1 + k < j {
          assert rest[k] == email[i + 1..j][k];
        } else if i + 1 + k > j {
          assert rest[k] == email[j + 1..][i + k - j];
        } else {
          assert rest[k] == email[j];
        }
      }
    }
    assert rest[1..|rest| - 1][j - i - 2] == '.';
  }

  /** A valid address has exactly one `@`. */
  lemma EmailHasOneAt(email: string)
    requires IsValidEmail(email)
    ensures Count(email, '@') == 1
  {
    var at := IndexOf(email, '@').value;
    assert email == email[..at] + ['@'] + email[at + 1..];
    CountConcat(email[..at] + ['@'], email[at + 1..], '@');
    CountConcat(email[..at], ['@'], '@');
    CountAbsent(email[..at], '@');
    CountAbsent(email[at + 1..], '@');
  }

  lemma {:induction false} CountAbsent(s: string, c: char)
    requires c !in s
    ensures Count(s, c) == 0
  {
    if s != [] {
      assert c !in s[1..];
      CountAbsent(s[1..], c);
    }
  }

  // ---------------------------------------------------------------------------
  // sanitizeJsonInput

  /** `[\u0000-\u0008\u000B\u000C\u000E-\u001F\u007F]`: the control characters other than tab, LF and CR. */
  predicate IsStrippedControl(c: char) {
    c <= '\U{0008}' || c == '\U{000B}' || c == '\U{000C}' || ('\U{000E}' <= c <= '\U{001F}') || c == '\U{007F}'
  }

  /** `.replace(/[...]/g, '')` */
  function RemoveControls(s: string): (r: string)
    ensures forall c :: c in r <==> c in s && !IsStrippedControl(c)
  {
    if s == [] then [] else (if IsStrippedControl(s[0]) then [] else [s[0]]) + RemoveControls(s[1..])
  }

  /** `sanitizeJsonInput(input)`, src/utils/validation.js:47-60; a non-string gives `''`. */
  function SanitizeJsonInput(input: Json): string {
    if input.JStr? then Trim(RemoveControls(input.s)) else ""
  }

  lemma {:induction false} RemoveControlsClean(s: string)
    requires forall c :: c in s ==> !IsStrippedControl(c)
    ensures RemoveControls(s) == s
  {
    if s != [] {
      assert s[0] in s;
      RemoveControlsClean(s[1..]);
      assert [s[0]] + s[1..] == s;
    }
  }

  /**
   * Removal works character by character: the kept characters of a
   * concatenation are those of each part, in order.
   */
  lemma {:induction false} RemoveControlsConcat(s: string, t: string)
    ensures RemoveControls(s + t) == RemoveControls(s) + RemoveControls(t)
    decreases |s|
  {
    if s != [] {
      assert (s + t)[0] == s[0] && (s + t)[1..] == s[1..] + t;
      RemoveControlsConcat(s[1..], t);
    } else {
      assert s + t == t;
    }
  }

  /** A stripped control character disappears; any other character stays. */
  lemma RemoveControlsOne(c: char)
    ensures RemoveControls([c]) == if IsStrippedControl(c) then [] else [c]
  {
    assert [c][1..] == [];
    assert RemoveControls([]) == [];
  }

  lemma {:induction false} RemoveControlsKeeps(s: string, c: char)
    requires !IsStrippedControl(c)
    ensures Count(RemoveControls(s), c) == Count(s, c)
  {
    if s != [] {
      RemoveControlsKeeps(s[1..], c);
      CountConcat(if IsStrippedControl(s[0]) then [] else [s[0]], RemoveControls(s[1..]), c);
    }
  }

  /**
   * The output has none of the stripped controls and no whitespace at
   * either end; a non-string gives the empty string; before trimming, every
   * tab, LF and CR is kept.
   */
  lemma SanitizeSpec(input: Json)
    ensures forall c :: c in SanitizeJsonInput(input) ==> !IsStrippedControl(c)
    ensures var r := SanitizeJsonInput(input);
      |r| > 0 ==> !IsJsWhitespace(r[0]) && !IsJsWhitespace(r[|r| - 1])
    ensures !input.JStr? ==> SanitizeJsonInput(input) == ""
    ensures input.JStr? ==>
      && Count(RemoveControls(input.s), '\t') == Count(input.s, '\t')
      && Count(RemoveControls(input.s), '\n') == Count(input.s, '\n')
      && Count(RemoveControls(input.s), '\r') == Count(input.s, '\r')
    ensures input.JStr? ==> (
      exists i, j :: 0 <= i <= j <= |RemoveControls(input.s)|
        && SanitizeJsonInput(input) == RemoveControls(input.s)[i..j]
        && (forall k :: 0 <= k < i ==> IsJsWhitespace(RemoveControls(input.s)[k]))
        && (forall k :: j <= k < |RemoveControls(input.s)| ==> IsJsWhitespace(RemoveControls(input.s)[k])))
  {
    if input.JStr? {
      RemoveControlsKeeps(input.s, '\t');
      RemoveControlsKeeps(input.s, '\n');
      RemoveControlsKeeps(input.s, '\r');
      TrimRemovesOnlySpace(RemoveControls(input.s));
    }
  }

  /** Sanitising what the sanitiser returned changes nothing. */
  lemma SanitizeIdempotent(input: Json)
    ensures SanitizeJsonInput(JStr(SanitizeJsonInput(input))) == SanitizeJsonInput(input)
  {
    var r := SanitizeJsonInput(input);
    if input.JStr? {
      RemoveControlsClean(r);
      TrimIdempotent(RemoveControls(input.s));
    } else {
      assert RemoveControls("") == "";
    }
  }
}
