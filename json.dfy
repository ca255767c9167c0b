/**
 * JSON values as the editing widgets see them, and the ordered plain objects
 * that JavaScript builds when a program assigns properties one at a time.
 *
 * An object is an ordered sequence of (key, value) pairs. Property
 * assignment (`o[k] = v`) is `Put`: it overwrites the value in place when the
 * key is already present and appends a new pair otherwise, which is the
 * insertion order `for..in`, `Object.keys` and `Object.entries` report.
 */
module JsonModel {

  datatype Option<+T> = None | Some(value: T)

  datatype Json =
    | JNull
    | JBool(b: bool)
    | JNum(n: int)
    | JStr(s: string)
    | JArr(items: seq<Json>)
    | JObj(fields: seq<(string, Json)>)

  /** The own enumerable properties of an object, in enumeration order. */
  type Entries = seq<(string, Json)>

  /** What `JSON.parse` yields: a value, or the message of the error it threw. */
  datatype ParseResult = Parsed(data: Json) | ParseError(message: string)

  /** `typeof v === 'object' && v !== null && !Array.isArray(v)` */
  predicate IsPlainObject(v: Json) {
    v.JObj?
  }

  /** JavaScript truthiness: `null`, `false`, `0` and `''` are falsy. */
  predicate Truthy(v: Json) {
    match v
    case JNull => false
    case JBool(b) => b
    case JNum(n) => n != 0
    case JStr(s) => s != ""
    case JArr(_) => true
    case JObj(_) => true
  }

  function Keys(es: Entries): (ks: seq<string>)
    ensures |ks| == |es|
    ensures forall i :: 0 <= i < |es| ==> ks[i] == es[i].0
  {
    seq(|es|, i requires 0 <= i < |es| => es[i].0)
  }

  ghost predicate DistinctKeys(es: Entries) {
    forall i, j :: 0 <= i < j < |es| ==> es[i].0 != es[j].0
  }

  /** `o[k]`: the value of the first pair with key `k`, `None` for `undefined`. */
  function Get(es: Entries, k: string): (r: Option<Json>)
    ensures r.None? <==> k !in Keys(es)
    ensures r.Some? ==> (k, r.value) in es
  {
    if es == [] then None
    else if es[0].0 == k then Some(es[0].1)
    else Get(es[1..], k)
  }

  /** `o[k] = v` */
  function Put(es: Entries, k: string, v: Json): (r: Entries)
  {
    if es == [] then [(k, v)]
    else if es[0].0 == k then [(k, v)] + es[1..]
    else [es[0]] + Put(es[1..], k, v)
  }

  /** Assigns every pair of `l`, left to right, into `acc`. */
  function PutAll(acc: Entries, l: Entries): (r: Entries)
    decreases |l|
  {
    if l == [] then acc else PutAll(Put(acc, l[0].0, l[0].1), l[1..])
  }

  /** The decimal numeral of `n`, as `String(n)` writes it. */
  function NatToString(n: nat): (s: string)
    ensures |s| > 0
    ensures forall i :: 0 <= i < |s| ==> '0' <= s[i] <= '9'
  {
    if n < 10 then [DigitChar(n)] else NatToString(n / 10) + [DigitChar(n % 10)]
  }

  function DigitChar(d: nat): (c: char)
    requires d < 10
    ensures '0' <= c <= '9'
  {
    ['0', '1', '2', '3', '4', '5', '6', '7', '8', '9'][d]
  }

  /** Different numbers print differently. */
  lemma {:induction false} NatToStringInjective(a: nat, b: nat)
    requires NatToString(a) == NatToString(b)
    ensures a == b
    decreases a
  {
    var s := NatToString(a);
    if a >= 10 && b >= 10 {
      assert s[..|s| - 1] == NatToString(a / 10) && s[|s| - 1] == DigitChar(a % 10);
      assert s[..|s| - 1] == NatToString(b / 10) && s[|s| - 1] == DigitChar(b % 10);
      NatToStringInjective(a / 10, b / 10);
      DigitCharInjective(a % 10, b % 10);
    } else if a < 10 && b < 10 {
      DigitCharInjective(a, b);
    }
  }

  lemma DigitCharInjective(d1: nat, d2: nat)
    requires d1 < 10 && d2 < 10 && DigitChar(d1) == DigitChar(d2)
    ensures d1 == d2
  {
  }

  function IntToString(n: int): string {
    if n < 0 then "-" + NatToString(-n) else NatToString(n)
  }

  /** The index-keyed view `for..in` and `Object.keys` give of an array. */
  function IndexEntries(items: seq<Json>): (es: Entries)
    ensures |es| == |items|
    ensures forall i :: 0 <= i < |items| ==> es[i] == (NatToString(i), items[i])
  {
    seq(|items|, i requires 0 <= i < |items| => (NatToString(i), items[i]))
  }

  /**
   * The pairs `for (k in v)` visits with `hasOwnProperty` true, which are also
   * what `Object.keys` and spread copy: the fields of an object, the indices
   * of an array or of a string, and nothing for `null`, booleans and numbers.
   */
  function OwnEntries(v: Json): Entries {
    match v
    case JObj(fields) => fields
    case JArr(items) => IndexEntries(items)
    case JStr(s) => IndexEntries(seq(|s|, i requires 0 <= i < |s| => JStr([s[i]])))
    case _ => []
  }

  /** `v.name` for a property read on a JSON value (no inherited properties). */
  function Member(v: Json, name: string): Option<Json> {
    if v.JObj? then Get(v.fields, name) else None
  }

  // ---------------------------------------------------------------------------
  // Facts about property assignment

  lemma {:induction false} GetPut(es: Entries, k: string, v: Json, k2: string)
    ensures Get(Put(es, k, v), k2) == if k2 == k then Some(v) else Get(es, k2)
  {
    if es != [] && es[0].0 != k {
      GetPut(es[1..], k, v, k2);
    }
  }

  lemma {:induction false} KeysPut(es: Entries, k: string, v: Json)
    ensures Keys(Put(es, k, v)) == if k in Keys(es) then Keys(es) else Keys(es) + [k]
  {
    if es != [] && es[0].0 != k {
      var rest := es[1..];
      KeysPut(rest, k, v);
      assert es == [es[0]] + rest;
      KeysCons(es[0], rest);
      KeysCons(es[0], Put(rest, k, v));
      assert k in Keys(es) <==> k in Keys(rest);
      if k !in Keys(rest) {
        assert [es[0].0] + (Keys(rest) + [k]) == ([es[0].0] + Keys(rest)) + [k];
      }
    } else if es != [] {
      KeysCons((k, v), es[1..]);
      KeysCons(es[0], es[1..]);
    }
  }

  lemma KeysCons(e: (string, Json), es: Entries)
    ensures Keys([e] + es) == [e.0] + Keys(es)
  {
  }

  /** Assigning a key that is not yet present appends it. */
  lemma {:induction false} PutAbsent(es: Entries, k: string, v: Json)
    requires k !in Keys(es)
    ensures Put(es, k, v) == es + [(k, v)]
  {
    if es != [] {
      assert Keys(es)[0] == es[0].0;
      assert k !in Keys(es[1..]) by {
        forall i | 0 <= i < |es[1..]| ensures Keys(es[1..])[i] != k {
          assert Keys(es[1..])[i] == Keys(es)[i + 1];
        }
      }
      PutAbsent(es[1..], k, v);
      assert [es[0]] + (es[1..] + [(k, v)]) == es + [(k, v)];
    }
  }

  lemma {:induction false} PutKeepsDistinct(es: Entries, k: string, v: Json)
    requires DistinctKeys(es)
    ensures DistinctKeys(Put(es, k, v))
  {
    var r := Put(es, k, v);
    KeysPut(es, k, v);
    forall i, j | 0 <= i < j < |r| ensures r[i].0 != r[j].0 {
      assert Keys(r)[i] == r[i].0 && Keys(r)[j] == r[j].0;
      if k in Keys(es) {
        assert Keys(es)[i] == es[i].0 && Keys(es)[j] == es[j].0;
      } else if j < |es| {
        assert Keys(es)[i] == es[i].0 && Keys(es)[j] == es[j].0;
      } else {
        assert Keys(es)[i] == es[i].0;
      }
    }
  }

  lemma {:induction false} PutAllKeepsDistinct(acc: Entries, l: Entries)
    requires DistinctKeys(acc)
    ensures DistinctKeys(PutAll(acc, l))
    decreases |l|
  {
    if l != [] {
      PutKeepsDistinct(acc, l[0].0, l[0].1);
      PutAllKeepsDistinct(Put(acc, l[0].0, l[0].1), l[1..]);
    }
  }

  /** A later assignment of the same key overrides an earlier one. */
  lemma {:induction false} PutPut(es: Entries, k: string, v0: Json, v: Json)
    ensures Put(Put(es, k, v0), k, v) == Put(es, k, v)
  {
    if es != [] && es[0].0 != k {
      PutPut(es[1..], k, v0, v);
    }
  }

  /** Overwriting a present key commutes with assigning any other key. */
  lemma {:induction false} PutCommute(es: Entries, k: string, v: Json, k2: string, v2: Json)
    requires k in Keys(es) && k != k2
    ensures Put(Put(es, k, v), k2, v2) == Put(Put(es, k2, v2), k, v)
  {
    assert es != [] && Keys(es)[0] == es[0].0;
    if es[0].0 != k && es[0].0 != k2 {
      assert k in Keys(es[1..]) by {
        var i :| 0 <= i < |es| && Keys(es)[i] == k;
        assert i > 0 && Keys(es[1..])[i - 1] == k;
      }
      PutCommute(es[1..], k, v, k2, v2);
    } else if es[0].0 == k2 {
      assert k in Keys(es[1..]) by {
        var i :| 0 <= i < |es| && Keys(es)[i] == k;
        assert i > 0 && Keys(es[1..])[i - 1] == k;
      }
    }
  }

  lemma {:induction false} PutAllConcat(m: Entries, l1: Entries, l2: Entries)
    ensures PutAll(m, l1 + l2) == PutAll(PutAll(m, l1), l2)
    decreases |l1|
  {
    if l1 != [] {
      assert (l1 + l2)[0] == l1[0] && (l1 + l2)[1..] == l1[1..] + l2;
      PutAllConcat(Put(m, l1[0].0, l1[0].1), l1[1..], l2);
    } else {
      assert l1 + l2 == l2;
    }
  }

  lemma {:induction false} PutKeepsKey(es: Entries, k: string, v: Json, k2: string)
    requires k2 in Keys(es)
    ensures k2 in Keys(Put(es, k, v))
  {
    KeysPut(es, k, v);
    if k !in Keys(es) {
      var i :| 0 <= i < |Keys(es)| && Keys(es)[i] == k2;
      assert (Keys(es) + [k])[i] == k2;
    }
  }

  /** Overwriting a present key commutes with assigning a run of other keys. */
  lemma {:induction false} PutAllPutPresent(a: Entries, r: Entries, k: string, v: Json)
    requires k in Keys(a) && k !in Keys(r)
    ensures Put(PutAll(a, r), k, v) == PutAll(Put(a, k, v), r)
    decreases |r|
  {
    if r != [] {
      var a1 := Put(a, r[0].0, r[0].1);
      assert Keys(r)[0] == r[0].0;
      assert k != r[0].0;
      PutKeepsKey(a, r[0].0, r[0].1, k);
      assert k !in Keys(r[1..]) by {
        forall i | 0 <= i < |r[1..]| ensures Keys(r[1..])[i] != k {
          assert Keys(r[1..])[i] == Keys(r)[i + 1];
        }
      }
      PutAllPutPresent(a1, r[1..], k, v);
      PutCommute(a, k, v, r[0].0, r[0].1);
    }
  }

  lemma {:induction false} PutAllPut(acc: Entries, b: Entries, k: string, v: Json)
    requires DistinctKeys(b)
    ensures PutAll(acc, Put(b, k, v)) == Put(PutAll(acc, b), k, v)
    decreases |b|
  {
    if b == [] {
    } else if b[0].0 == k {
      var rest := b[1..];
      assert k !in Keys(rest) by {
        forall i | 0 <= i < |rest| ensures Keys(rest)[i] != k {
          assert rest[i] == b[i + 1];
        }
      }
      assert Put(b, k, v)[1..] == rest;
      var a0 := Put(acc, k, b[0].1);
      GetPut(acc, k, b[0].1, k);
      PutAllPutPresent(a0, rest, k, v);
      PutPut(acc, k, b[0].1, v);
    } else {
      var rest := b[1..];
      assert DistinctKeys(rest) by {
        forall i, j | 0 <= i < j < |rest| ensures rest[i].0 != rest[j].0 {
          assert rest[i] == b[i + 1] && rest[j] == b[j + 1];
        }
      }
      assert Put(b, k, v)[0] == b[0] && Put(b, k, v)[1..] == Put(rest, k, v);
      PutAllPut(Put(acc, b[0].0, b[0].1), rest, k, v);
    }
  }

  /**
   * `Object.assign(acc, o)` where `o` was itself built by assignments `l`
   * gives the same object as performing the assignments `l` on `acc`.
   */
  lemma {:induction false} AssignCollapse(acc: Entries, b: Entries, l: Entries)
    requires DistinctKeys(b)
    ensures PutAll(acc, PutAll(b, l)) == PutAll(PutAll(acc, b), l)
    decreases |l|
  {
    if l != [] {
      var b1 := Put(b, l[0].0, l[0].1);
      PutKeepsDistinct(b, l[0].0, l[0].1);
      AssignCollapse(acc, b1, l[1..]);
      PutAllPut(acc, b, l[0].0, l[0].1);
    }
  }

  /** Assigning distinct fresh keys just appends them, in order. */
  lemma {:induction false} PutAllFresh(acc: Entries, l: Entries)
    requires DistinctKeys(l)
    requires forall i :: 0 <= i < |l| ==> l[i].0 !in Keys(acc)
    ensures PutAll(acc, l) == acc + l
    decreases |l|
  {
    if l != [] {
      PutAbsent(acc, l[0].0, l[0].1);
      var acc1 := acc + [l[0]];
      var rest := l[1..];
      assert Keys(acc1) == Keys(acc) + [l[0].0];
      forall i | 0 <= i < |rest| ensures rest[i].0 !in Keys(acc1) {
        assert rest[i] == l[i + 1];
      }
      assert DistinctKeys(rest) by {
        forall i, j | 0 <= i < j < |rest| ensures rest[i].0 != rest[j].0 {
          assert rest[i] == l[i + 1] && rest[j] == l[j + 1];
        }
      }
      PutAllFresh(acc1, rest);
      assert acc1 + rest == acc + l;
    }
  }
}
