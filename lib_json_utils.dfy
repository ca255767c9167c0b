/**
 * The flatten/unflatten codec and the widget-type inference of
 * lib/utils/jsonUtils.js.
 *
 * `flattenObject` turns a nested object into a one-level object whose keys
 * are dotted paths; `unflattenObject` splits the keys on `.` and rebuilds
 * the nesting. Arrays, `null` and scalars are leaves of the walk.
 */
module LibJsonUtils {
  import opened JsonModel
  import opened JsStrings

  // ---------------------------------------------------------------------------
  // A size measure, for the recursion through nested objects

  function Size(v: Json): nat {
    match v
    case JObj(fs) => 1 + Sum(seq(|fs|, i requires 0 <= i < |fs| => Size(fs[i].1)))
    case JArr(items) => 1 + Sum(seq(|items|, i requires 0 <= i < |items| => Size(items[i])))
    case _ => 1
  }

  function Sum(s: seq<nat>): nat {
    if s == [] then 0 else s[0] + Sum(s[1..])
  }

  function EntriesSize(es: Entries): nat {
    if es == [] then 0 else Size(es[0].1) + EntriesSize(es[1..])
  }

  lemma {:induction false} SumEntries(fs: Entries)
    ensures Sum(seq(|fs|, i requires 0 <= i < |fs| => Size(fs[i].1))) == EntriesSize(fs)
  {
    if fs != [] {
      assert seq(|fs|, i requires 0 <= i < |fs| => Size(fs[i].1))[1..]
        == seq(|fs[1..]|, i requires 0 <= i < |fs[1..]| => Size(fs[1..][i].1));
      SumEntries(fs[1..]);
    }
  }

  lemma SizeObj(fs: Entries)
    ensures Size(JObj(fs)) == 1 + EntriesSize(fs)
  {
    SumEntries(fs);
  }

  // ---------------------------------------------------------------------------
  // flattenObject

  /** `prefix ? `${prefix}.${key}` : key` -- an empty prefix is falsy. */
  function NewKey(prefix: string, key: string): string {
    if prefix == "" then key else prefix + "." + key
  }

  /**
   * The assignments `flattenObject` performs, in order: a pre-order walk of the
   * entries that descends into plain objects and emits every other value,
   * verbatim, under its dotted key.
   */
  function Leaves(es: Entries, prefix: string): Entries
    decreases EntriesSize(es)
  {
    if es == [] then []
    else
      var k, x := es[0].0, es[0].1;
      var head := if x.JObj? then (SizeObj(x.fields); Leaves(x.fields, NewKey(prefix, k))) else [(NewKey(prefix, k), x)];
      head + Leaves(es[1..], prefix)
  }

  /**
   * What `flattenObject(obj, prefix)` returns: the object built by performing
   * the assignments of `Leaves` on `{}`. The walk goes over the own entries of
   * `obj`, so a top-level array or string flattens by its index keys.
   */
  function Flatten(obj: Json, prefix: string): Entries {
    PutAll([], Leaves(OwnEntries(obj), prefix))
  }

  /** lib/utils/jsonUtils.js:11-27, the `for..in` loop with `Object.assign`. */
  method FlattenObject(obj: Json, prefix: string) returns (flattened: Entries)
    ensures flattened == Flatten(obj, prefix)
    decreases obj
  {
    flattened := [];
    var es := OwnEntries(obj);
    var i := 0;
    while i < |es|
      invariant 0 <= i <= |es|
      invariant flattened == PutAll([], Leaves(es[..i], prefix))
    {
      var key, x := es[i].0, es[i].1;
      var newKey := NewKey(prefix, key);
      if x.JObj? {
        assert x < obj by {
          OwnEntriesBelow(obj, i);
        }
        var sub := FlattenObject(x, newKey);
        ghost var before := flattened;
        flattened := Assign(flattened, sub);
        FlattenStepObject(es, i, prefix, before);
      } else {
        FlattenStepLeaf(es, i, prefix, flattened);
        flattened := Put(flattened, newKey, x);
      }
      i := i + 1;
    }
    assert es[..|es|] == es;
  }

  /** `Object.assign(target, source)`: the source's entries assigned in order. */
  method Assign(target: Entries, source: Entries) returns (r: Entries)
    ensures r == PutAll(target, source)
  {
    r := target;
    var j := 0;
    while j < |source|
      invariant 0 <= j <= |source|
      invariant r == PutAll(target, source[..j])
    {
      PutAllConcat(target, source[..j], [source[j]]);
      assert source[..j + 1] == source[..j] + [source[j]];
      assert PutAll(r, [source[j]]) == PutAll(Put(r, source[j].0, source[j].1), []);
      r := Put(r, source[j].0, source[j].1);
      j := j + 1;
    }
    assert source[..|source|] == source;
  }

  /** A nested plain object among the own entries is structurally smaller. */
  lemma OwnEntriesBelow(obj: Json, i: nat)
    requires i < |OwnEntries(obj)| && OwnEntries(obj)[i].1.JObj?
    ensures OwnEntries(obj)[i].1 < obj
  {
    var x := OwnEntries(obj)[i].1;
    if obj.JObj? {
      assert obj.fields[i] == OwnEntries(obj)[i];
    } else if obj.JArr? {
      assert obj.items[i] == x;
    }
  }

  lemma FlattenStepObject(es: Entries, i: nat, prefix: string, before: Entries)
    requires i < |es| && es[i].1.JObj?
    requires before == PutAll([], Leaves(es[..i], prefix))
    ensures PutAll(before, Flatten(es[i].1, NewKey(prefix, es[i].0))) == PutAll([], Leaves(es[..i + 1], prefix))
  {
    var x := es[i].1;
    SizeObj(x.fields);
    var part := Leaves(x.fields, NewKey(prefix, es[i].0));
    LeavesConcat(es[..i], [es[i]], prefix);
    assert es[..i + 1] == es[..i] + [es[i]];
    assert [es[i]][0] == es[i] && [es[i]][1..] == [];
    assert Leaves([es[i]], prefix) == part + [];
    assert Leaves(es[..i + 1], prefix) == Leaves(es[..i], prefix) + part;
    assert OwnEntries(x) == x.fields;
    AssignCollapse(before, [], part);
    assert PutAll(before, []) == before;
    PutAllConcat([], Leaves(es[..i], prefix), part);
  }

  lemma FlattenStepLeaf(es: Entries, i: nat, prefix: string, before: Entries)
    requires i < |es| && !es[i].1.JObj?
    requires before == PutAll([], Leaves(es[..i], prefix))
    ensures Put(before, NewKey(prefix, es[i].0), es[i].1) == PutAll([], Leaves(es[..i + 1], prefix))
  {
    var leaf := (NewKey(prefix, es[i].0), es[i].1);
    LeavesConcat(es[..i], [es[i]], prefix);
    assert es[..i + 1] == es[..i] + [es[i]];
    assert [es[i]][0] == es[i] && [es[i]][1..] == [];
    assert Leaves([es[i]], prefix) == [leaf] + [];
    assert Leaves(es[..i + 1], prefix) == Leaves(es[..i], prefix) + [leaf];
    PutAllConcat([], Leaves(es[..i], prefix), [leaf]);
    assert PutAll(before, [leaf]) == PutAll(Put(before, leaf.0, leaf.1), []);
  }

  lemma {:induction false} LeavesConcat(a: Entries, b: Entries, prefix: string)
    ensures Leaves(a + b, prefix) == Leaves(a, prefix) + Leaves(b, prefix)
    decreases |a|
  {
    if a == [] {
      assert a + b == b;
    } else {
      assert (a + b)[0] == a[0] && (a + b)[1..] == a[1..] + b;
      LeavesConcat(a[1..], b, prefix);
    }
  }

  /** Every emitted value is a leaf: never a non-null, non-array object. */
  lemma {:induction false} LeavesAreLeaves(es: Entries, prefix: string)
    ensures forall e :: e in Leaves(es, prefix) ==> !e.1.JObj?
    decreases EntriesSize(es)
  {
    if es != [] {
      var x := es[0].1;
      if x.JObj? {
        SizeObj(x.fields);
        LeavesAreLeaves(x.fields, NewKey(prefix, es[0].0));
      }
      LeavesAreLeaves(es[1..], prefix);
    }
  }

  lemma {:induction false} PutAllValues(acc: Entries, l: Entries)
    ensures forall e :: e in PutAll(acc, l) ==> e in acc || e in l
    decreases |l|
  {
    if l != [] {
      var acc1 := Put(acc, l[0].0, l[0].1);
      PutValues(acc, l[0].0, l[0].1);
      PutAllValues(acc1, l[1..]);
    }
  }

  lemma {:induction false} PutValues(es: Entries, k: string, v: Json)
    ensures forall e :: e in Put(es, k, v) ==> e in es || e == (k, v)
  {
    if es != [] && es[0].0 != k {
      PutValues(es[1..], k, v);
    }
  }

  /**
   * `flattenObject` never emits a plain object as a value, and every value it
   * emits is one of the source's values, copied verbatim.
   */
  lemma FlattenEmitsLeaves(obj: Json, prefix: string)
    ensures forall e :: e in Flatten(obj, prefix) ==> !e.1.JObj? && e in Leaves(OwnEntries(obj), prefix)
  {
    LeavesAreLeaves(OwnEntries(obj), prefix);
    PutAllValues([], Leaves(OwnEntries(obj), prefix));
  }

  /** The result has no repeated key, as a JavaScript object cannot. */
  lemma FlattenDistinct(obj: Json, prefix: string)
    ensures DistinctKeys(Flatten(obj, prefix))
  {
    PutAllKeepsDistinct([], Leaves(OwnEntries(obj), prefix));
  }

  // ---------------------------------------------------------------------------
  // Paths: the source-key path to every leaf

  /** The (key path, leaf) pairs of a pre-order walk; empty objects have none. */
  function Paths(es: Entries): seq<(Path, Json)>
    decreases EntriesSize(es)
  {
    if es == [] then []
    else
      var k, x := es[0].0, es[0].1;
      var head := if x.JObj? then (SizeObj(x.fields); Prefixed(k, Paths(x.fields))) else [([k], x)];
      head + Paths(es[1..])
  }

  function Prefixed(k: string, pl: seq<(Path, Json)>): (r: seq<(Path, Json)>)
    ensures |r| == |pl|
    ensures forall i :: 0 <= i < |pl| ==> r[i] == ([k] + pl[i].0, pl[i].1)
  {
    seq(|pl|, i requires 0 <= i < |pl| => ([k] + pl[i].0, pl[i].1))
  }

  /** The key `flattenObject` builds for a path: `NewKey` applied segment by segment. */
  function JoinFrom(prefix: string, p: seq<string>): string
    decreases |p|
  {
    if p == [] then prefix else JoinFrom(NewKey(prefix, p[0]), p[1..])
  }

  function KeyedBy(prefix: string, pl: seq<(Path, Json)>): (r: Entries)
    ensures |r| == |pl|
    ensures forall i :: 0 <= i < |pl| ==> r[i] == (JoinFrom(prefix, pl[i].0), pl[i].1)
  {
    seq(|pl|, i requires 0 <= i < |pl| => (JoinFrom(prefix, pl[i].0), pl[i].1))
  }

  /** Each emitted key is built from the source-key path to its leaf, in pre-order. */
  lemma {:induction false} LeavesArePaths(es: Entries, prefix: string)
    ensures Leaves(es, prefix) == KeyedBy(prefix, Paths(es))
    decreases EntriesSize(es)
  {
    if es != [] {
      LeavesArePaths(es[1..], prefix);
      if es[0].1.JObj? {
        SizeObj(es[0].1.fields);
        LeavesArePaths(es[0].1.fields, NewKey(prefix, es[0].0));
        LeavesArePathsObject(es, prefix);
      } else {
        LeavesArePathsLeaf(es, prefix);
      }
    }
  }

  /** The step of `LeavesArePaths` for a first entry that is a plain object. */
  lemma LeavesArePathsObject(es: Entries, prefix: string)
    requires es != [] && es[0].1.JObj?
    requires Leaves(es[1..], prefix) == KeyedBy(prefix, Paths(es[1..]))
    requires Leaves(es[0].1.fields, NewKey(prefix, es[0].0)) == KeyedBy(NewKey(prefix, es[0].0), Paths(es[0].1.fields))
    ensures Leaves(es, prefix) == KeyedBy(prefix, Paths(es))
  {
    var k, fs := es[0].0, es[0].1.fields;
    SizeObj(fs);
    var pl, rest := Paths(fs), Paths(es[1..]);
    assert Paths(es) == Prefixed(k, pl) + rest;
    assert Leaves(es, prefix) == Leaves(fs, NewKey(prefix, k)) + Leaves(es[1..], prefix);
    KeyedByConcat(prefix, Prefixed(k, pl), rest);
    KeyedByPrefixed(prefix, k, pl);
  }

  /** The step of `LeavesArePaths` for a first entry that is a leaf. */
  lemma LeavesArePathsLeaf(es: Entries, prefix: string)
    requires es != [] && !es[0].1.JObj?
    requires Leaves(es[1..], prefix) == KeyedBy(prefix, Paths(es[1..]))
    ensures Leaves(es, prefix) == KeyedBy(prefix, Paths(es))
  {
    var k, x := es[0].0, es[0].1;
    var rest := Paths(es[1..]);
    assert Paths(es) == [([k], x)] + rest;
    assert Leaves(es, prefix) == [(NewKey(prefix, k), x)] + Leaves(es[1..], prefix);
    KeyedByConcat(prefix, [([k], x)], rest);
    assert JoinFrom(prefix, [k]) == NewKey(prefix, k) by {
      assert [k][1..] == [];
    }
  }

  lemma KeyedByConcat(prefix: string, a: seq<(Path, Json)>, b: seq<(Path, Json)>)
    ensures KeyedBy(prefix, a + b) == KeyedBy(prefix, a) + KeyedBy(prefix, b)
  {
  }

  lemma KeyedByPrefixed(prefix: string, k: string, pl: seq<(Path, Json)>)
    ensures KeyedBy(prefix, Prefixed(k, pl)) == KeyedBy(NewKey(prefix, k), pl)
  {
    forall i | 0 <= i < |pl| ensures JoinFrom(prefix, [k] + pl[i].0) == JoinFrom(NewKey(prefix, k), pl[i].0) {
      assert ([k] + pl[i].0)[1..] == pl[i].0;
    }
  }

  /** With a non-empty prefix, the key is the prefix and the path joined by dots. */
  lemma {:induction false} JoinFromDots(q: string, p: Path)
    requires q != ""
    ensures JoinFrom(q, p) == q + "." + Join(p, '.')
    decreases |p|
  {
    if |p| == 1 {
      assert p[1..] == [];
    } else {
      JoinFromDots(q + "." + p[0], p[1..]);
      assert q + "." + p[0] + "." + Join(p[1..], '.') == q + "." + (p[0] + "." + Join(p[1..], '.'));
    }
  }

  /** From the top, a path whose first key is non-empty gives its dotted join. */
  lemma JoinFromTop(p: Path)
    requires p[0] != ""
    ensures JoinFrom("", p) == Join(p, '.')
  {
    if |p| > 1 {
      JoinFromDots(p[0], p[1..]);
    } else {
      assert p[1..] == [];
    }
  }

  /** `getNestedLevel(key)`, lib/utils/jsonUtils.js:132-134. */
  function GetNestedLevel(key: string): (level: nat)
    ensures level == Count(key, '.')
  {
    SplitLength(key, '.');
    |Split(key, '.')| - 1
  }

  // ---------------------------------------------------------------------------
  // Objects that flatten and unflatten back to themselves

  /**
   * Every key non-empty and free of dots, no repeated key, and every nested
   * plain object non-empty (an empty one has no leaves and is dropped).
   */
  ghost predicate Flattenable(es: Entries)
    decreases EntriesSize(es)
  {
    es == [] ||
    (var k, x := es[0].0, es[0].1;
     && k != "" && '.' !in k
     && k !in Keys(es[1..])
     && (x.JObj? ==> x.fields != [] && (SizeObj(x.fields); Flattenable(x.fields)))
     && Flattenable(es[1..]))
  }

  ghost predicate GoodSegments(p: seq<string>) {
    forall i :: 0 <= i < |p| ==> p[i] != "" && '.' !in p[i]
  }

  lemma {:induction false} PathsShape(es: Entries)
    requires Flattenable(es)
    ensures es != [] ==> Paths(es) != []
    ensures forall i :: 0 <= i < |Paths(es)| ==> GoodSegments(Paths(es)[i].0) && Paths(es)[i].0[0] in Keys(es)
    ensures forall i, j :: 0 <= i < j < |Paths(es)| ==> Paths(es)[i].0 != Paths(es)[j].0
    decreases EntriesSize(es)
  {
    if es != [] {
      var k, x := es[0].0, es[0].1;
      var rest := es[1..];
      PathsShape(rest);
      var pr := Paths(rest);
      var head: seq<(Path, Json)>;
      if x.JObj? {
        SizeObj(x.fields);
        PathsShape(x.fields);
        head := Prefixed(k, Paths(x.fields));
        PrefixedShape(k, Paths(x.fields));
      } else {
        head := [([k], x)];
      }
      assert Paths(es) == head + pr;
      assert es == [es[0]] + rest;
      KeysCons(es[0], rest);
      AppendPathsShape(k, Keys(rest), head, pr);
    }
  }

  /** The paths of one entry, all under its key, followed by the paths of the others. */
  lemma AppendPathsShape(k: string, ks: seq<string>, head: seq<(Path, Json)>, pr: seq<(Path, Json)>)
    requires forall i :: 0 <= i < |head| ==> GoodSegments(head[i].0) && |head[i].0| > 0 && head[i].0[0] == k
    requires forall i, j :: 0 <= i < j < |head| ==> head[i].0 != head[j].0
    requires k !in ks
    requires forall i :: 0 <= i < |pr| ==> GoodSegments(pr[i].0) && |pr[i].0| > 0 && pr[i].0[0] in ks
    requires forall i, j :: 0 <= i < j < |pr| ==> pr[i].0 != pr[j].0
    ensures forall i :: 0 <= i < |head + pr| ==> GoodSegments((head + pr)[i].0) && |(head + pr)[i].0| > 0 && (head + pr)[i].0[0] in [k] + ks
    ensures forall i, j :: 0 <= i < j < |head + pr| ==> (head + pr)[i].0 != (head + pr)[j].0
  {
  }

  /** Prefixing good, distinct paths by a good key keeps them good and distinct. */
  lemma PrefixedShape(k: string, pl: seq<(Path, Json)>)
    requires k != "" && '.' !in k
    requires forall i :: 0 <= i < |pl| ==> GoodSegments(pl[i].0)
    requires forall i, j :: 0 <= i < j < |pl| ==> pl[i].0 != pl[j].0
    ensures forall i :: 0 <= i < |Prefixed(k, pl)| ==> GoodSegments(Prefixed(k, pl)[i].0) && |Prefixed(k, pl)[i].0| > 0 && Prefixed(k, pl)[i].0[0] == k
    ensures forall i, j :: 0 <= i < j < |Prefixed(k, pl)| ==> Prefixed(k, pl)[i].0 != Prefixed(k, pl)[j].0
  {
    var head := Prefixed(k, pl);
    forall i | 0 <= i < |head| ensures GoodSegments(head[i].0) {
      var p := pl[i].0;
      assert head[i].0 == [k] + p;
      forall j | 0 <= j < |head[i].0| ensures head[i].0[j] != "" && '.' !in head[i].0[j] {
        if j > 0 { assert head[i].0[j] == p[j - 1]; }
      }
    }
    forall i, j | 0 <= i < j < |head| ensures head[i].0 != head[j].0 {
      assert head[i].0[1..] == pl[i].0 && head[j].0[1..] == pl[j].0;
    }
  }

  /** The dotted keys of good paths split back into those paths. */
  lemma SplitLeafKeys(fs: Entries)
    requires Flattenable(fs)
    ensures |Leaves(fs, "")| == |Paths(fs)|
    ensures forall i :: 0 <= i < |Leaves(fs, "")| ==> Split(Leaves(fs, "")[i].0, '.') == Paths(fs)[i].0
  {
    LeavesArePaths(fs, "");
    PathsShape(fs);
    var pl := Paths(fs);
    var l := Leaves(fs, "");
    forall i | 0 <= i < |l| ensures Split(l[i].0, '.') == pl[i].0 {
      JoinFromTop(pl[i].0);
      SplitJoin(pl[i].0, '.');
    }
  }

  /** Under `Flattenable`, the flattened keys are distinct, so no assignment overwrote another. */
  lemma FlattenIsLeaves(fs: Entries)
    requires Flattenable(fs)
    ensures Flatten(JObj(fs), "") == Leaves(fs, "")
    ensures |Leaves(fs, "")| == |Paths(fs)|
    ensures forall i :: 0 <= i < |Leaves(fs, "")| ==> Split(Leaves(fs, "")[i].0, '.') == Paths(fs)[i].0
  {
    SplitLeafKeys(fs);
    LeafKeysDistinct(fs);
    PutAllFresh([], Leaves(fs, ""));
  }

  lemma LeafKeysDistinct(fs: Entries)
    requires Flattenable(fs)
    ensures DistinctKeys(Leaves(fs, ""))
  {
    SplitLeafKeys(fs);
    PathsShape(fs);
    var pl := Paths(fs);
    var l := Leaves(fs, "");
    forall i, j | 0 <= i < j < |l| ensures l[i].0 != l[j].0 {
      assert Split(l[i].0, '.') == pl[i].0 != pl[j].0 == Split(l[j].0, '.');
    }
  }

  // ---------------------------------------------------------------------------
  // unflattenObject

  /**
   * What the inner loop of `unflattenObject` does for one key, on values:
   * walk the path from `node`, replacing a missing or falsy intermediate slot
   * by `{}`, descending into an object slot, and assigning the leaf at the
   * end. `None` when the walk meets a truthy slot that is not a plain object
   * (strict-mode code throws there for a primitive; see README).
   */
  function SetPath(node: Entries, p: Path, v: Json): Option<Entries>
    decreases |p|
  {
    if |p| == 1 then Some(Put(node, p[0], v))
    else
      var slot := Get(node, p[0]);
      var child :=
        if slot.None? || !Truthy(slot.value) then Some([])
        else if slot.value.JObj? then Some(slot.value.fields)
        else None;
      match child
      case None => None
      case Some(c) =>
        match SetPath(c, p[1..], v)
        case None => None
        case Some(c2) => Some(Put(node, p[0], JObj(c2)))
  }

  /** The outer loop on split keys: every path assigned in order. */
  function UnflattenPaths(acc: Entries, pl: seq<(Path, Json)>): Option<Entries>
    decreases |pl|
  {
    if pl == [] then Some(acc)
    else
      match SetPath(acc, pl[0].0, pl[0].1)
      case None => None
      case Some(a) => UnflattenPaths(a, pl[1..])
  }

  function SplitKeys(flat: Entries): (pl: seq<(Path, Json)>)
    ensures |pl| == |flat|
    ensures forall i :: 0 <= i < |flat| ==> pl[i] == (Split(flat[i].0, '.'), flat[i].1)
  {
    seq(|flat|, i requires 0 <= i < |flat| => (Split(flat[i].0, '.'), flat[i].1))
  }

  /** What `unflattenObject(flat)` returns, `None` where it would throw. */
  function Unflatten(flat: Entries): Option<Entries> {
    UnflattenPaths([], SplitKeys(flat))
  }

  /** lib/utils/jsonUtils.js:34-52 */
  method UnflattenObject(flat: Entries) returns (result: Option<Entries>)
    ensures result == Unflatten(flat)
  {
    var acc: Entries := [];
    var i := 0;
    while i < |flat|
      invariant 0 <= i <= |flat|
      invariant UnflattenPaths([], SplitKeys(flat[..i])) == Some(acc)
    {
      var keys := Split(flat[i].0, '.');
      var next := SetPath(acc, keys, flat[i].1);
      UnflattenStep(flat, i, acc);
      if next.None? {
        return None;
      }
      acc := next.value;
      i := i + 1;
    }
    assert flat[..|flat|] == flat;
    result := Some(acc);
  }

  /** One more pass of the outer loop: the key's assignment either fails the whole walk or extends it. */
  lemma UnflattenStep(flat: Entries, i: nat, acc: Entries)
    requires i < |flat| && UnflattenPaths([], SplitKeys(flat[..i])) == Some(acc)
    ensures var next := SetPath(acc, Split(flat[i].0, '.'), flat[i].1);
      && (next.None? ==> Unflatten(flat) == None)
      && (next.Some? ==> UnflattenPaths([], SplitKeys(flat[..i + 1])) == next)
  {
    var step := [(Split(flat[i].0, '.'), flat[i].1)];
    SplitKeysSnoc(flat, i);
    UnflattenPathsConcat([], SplitKeys(flat[..i]), step);
    assert step[1..] == [];
    if SetPath(acc, Split(flat[i].0, '.'), flat[i].1).None? {
      UnflattenFailsFrom(flat, i + 1);
    }
  }

  lemma SplitKeysSnoc(flat: Entries, i: nat)
    requires i < |flat|
    ensures SplitKeys(flat[..i + 1]) == SplitKeys(flat[..i]) + [(Split(flat[i].0, '.'), flat[i].1)]
  {
  }

  /** A walk that fails on the first `j` keys fails on them all. */
  lemma UnflattenFailsFrom(flat: Entries, j: nat)
    requires j <= |flat| && UnflattenPaths([], SplitKeys(flat[..j])) == None
    ensures Unflatten(flat) == None
  {
    UnflattenPathsConcat([], SplitKeys(flat[..j]), SplitKeys(flat[j..]));
    assert SplitKeys(flat[..j]) + SplitKeys(flat[j..]) == SplitKeys(flat) by {
      assert flat[..j] + flat[j..] == flat;
    }
  }

  lemma {:induction false} UnflattenPathsConcat(acc: Entries, a: seq<(Path, Json)>, b: seq<(Path, Json)>)
    ensures UnflattenPaths(acc, a + b) ==
      match UnflattenPaths(acc, a)
      case None => None
      case Some(m) => UnflattenPaths(m, b)
    decreases |a|
  {
    if a == [] {
      assert a + b == b;
    } else {
      assert (a + b)[0] == a[0] && (a + b)[1..] == a[1..] + b;
      match SetPath(acc, a[0].0, a[0].1)
      case None =>
      case Some(m) => UnflattenPathsConcat(m, a[1..], b);
    }
  }

  /**
   * Keys sharing a first segment `k` share one intermediate object: assigning
   * the paths `k.p` for every `p` of `pl` updates only slot `k`, whose object
   * is the result of assigning the paths `p` to what the slot held.
   */
  lemma {:induction false} PrefixedUnflatten(acc: Entries, k: string, c: Entries, pl: seq<(Path, Json)>)
    requires Get(acc, k) == Some(JObj(c)) || (Get(acc, k) == None && c == [])
    ensures UnflattenPaths(acc, Prefixed(k, pl)) ==
      match UnflattenPaths(c, pl)
      case None => None
      case Some(c2) => Some(if pl == [] then acc else Put(acc, k, JObj(c2)))
    decreases |pl|
  {
    if pl != [] {
      var ppl := Prefixed(k, pl);
      var p, v := pl[0].0, pl[0].1;
      assert ppl[0].0 == [k] + p && ppl[0].0[1..] == p;
      assert ppl[1..] == Prefixed(k, pl[1..]);
      match SetPath(c, p, v)
      case None =>
      case Some(c1) =>
        var acc1 := Put(acc, k, JObj(c1));
        assert SetPath(acc, ppl[0].0, v) == Some(acc1);
        GetPut(acc, k, JObj(c1), k);
        PrefixedUnflatten(acc1, k, c1, pl[1..]);
        match UnflattenPaths(c1, pl[1..])
        case None =>
        case Some(c2) => PutPut(acc, k, JObj(c1), JObj(c2));
    }
  }

  lemma {:induction false} RoundTripPaths(acc: Entries, es: Entries)
    requires Flattenable(es)
    requires forall i :: 0 <= i < |es| ==> es[i].0 !in Keys(acc)
    ensures UnflattenPaths(acc, Paths(es)) == Some(acc + es)
    decreases EntriesSize(es)
  {
    if es == [] {
      assert acc + es == acc;
    } else {
      var k, x := es[0].0, es[0].1;
      var rest := es[1..];
      var acc1 := acc + [(k, x)];
      PutAbsent(acc, k, x);
      var head: seq<(Path, Json)>;
      if x.JObj? {
        SizeObj(x.fields);
        head := Prefixed(k, Paths(x.fields));
        RoundTripPaths([], x.fields);
        assert [] + x.fields == x.fields;
        PathsShape(x.fields);
        PrefixedUnflatten(acc, k, [], Paths(x.fields));
        assert UnflattenPaths(acc, head) == Some(acc1);
      } else {
        head := [([k], x)];
        assert UnflattenPaths(acc, head) == Some(acc1);
      }
      assert Paths(es) == head + Paths(rest);
      UnflattenPathsConcat(acc, head, Paths(rest));
      assert Keys(acc1) == Keys(acc) + [k];
      forall i | 0 <= i < |rest| ensures rest[i].0 !in Keys(acc1) {
        assert rest[i] == es[i + 1];
        assert Keys(rest)[i] == rest[i].0;
      }
      RoundTripPaths(acc1, rest);
      assert acc1 + rest == acc + es;
    }
  }

  /**
   * Round trip: `unflattenObject(flattenObject(o))` is `o` again when every
   * key is non-empty and dot-free, no key repeats and no nested object is
   * empty.
   */
  lemma RoundTrip(fs: Entries)
    requires Flattenable(fs)
    ensures Unflatten(Flatten(JObj(fs), "")) == Some(fs)
  {
    FlattenIsLeaves(fs);
    var l := Leaves(fs, "");
    LeavesArePaths(fs, "");
    assert SplitKeys(l) == Paths(fs);
    RoundTripPaths([], fs);
    assert [] + fs == fs;
  }

  // ---------------------------------------------------------------------------
  // unflattenObject on keys of which none is a dotted prefix of another

  /** The value reached by following a key path through nested plain objects. */
  function Lookup(es: Entries, p: Path): Option<Json>
    decreases |p|
  {
    match Get(es, p[0])
    case None => None
    case Some(x) =>
      if |p| == 1 then Some(x)
      else if x.JObj? then Lookup(x.fields, p[1..])
      else None
  }

  /** Neither path is a prefix of the other (in particular they differ). */
  predicate Diverge(p: Path, q: Path)
    decreases |p|
  {
    p[0] != q[0] || (|p| > 1 && |q| > 1 && Diverge(p[1..], q[1..]))
  }

  /** Every slot the walk meets on the way down `p` is missing, falsy or a plain object. */
  predicate Walkable(node: Entries, p: Path)
    decreases |p|
  {
    |p| == 1 ||
    match Get(node, p[0])
    case None => true
    case Some(x) => !Truthy(x) || (x.JObj? && Walkable(x.fields, p[1..]))
  }

  /** The walk succeeds exactly when it meets no truthy non-object. */
  lemma {:induction false} SetPathSucceeds(node: Entries, p: Path, v: Json)
    ensures SetPath(node, p, v).Some? <==> Walkable(node, p)
    decreases |p|
  {
    if |p| > 1 {
      var slot := Get(node, p[0]);
      if slot.None? || !Truthy(slot.value) {
        EmptyWalkable(p[1..]);
        SetPathSucceeds([], p[1..], v);
      } else if slot.value.JObj? {
        SetPathSucceeds(slot.value.fields, p[1..], v);
      }
    }
  }

  lemma EmptyWalkable(p: Path)
    ensures Walkable([], p)
  {
  }

  /** After the walk, the path leads to the assigned value. */
  lemma {:induction false} LookupSetPath(node: Entries, p: Path, v: Json)
    requires SetPath(node, p, v).Some?
    ensures Lookup(SetPath(node, p, v).value, p) == Some(v)
    decreases |p|
  {
    var n2 := SetPath(node, p, v).value;
    if |p| == 1 {
      GetPut(node, p[0], v, p[0]);
    } else {
      var slot := Get(node, p[0]);
      var c := if slot.None? || !Truthy(slot.value) then [] else slot.value.fields;
      var c2 := SetPath(c, p[1..], v).value;
      LookupSetPath(c, p[1..], v);
      GetPut(node, p[0], JObj(c2), p[0]);
    }
  }

  /** The walk for `p` changes nothing reachable along a path that diverges from `p`. */
  lemma {:induction false} SetPathKeepsOthers(node: Entries, p: Path, v: Json, q: Path)
    requires SetPath(node, p, v).Some? && Diverge(p, q)
    ensures Lookup(SetPath(node, p, v).value, q) == Lookup(node, q)
    ensures Walkable(node, q) ==> Walkable(SetPath(node, p, v).value, q)
    decreases |p|
  {
    var n2 := SetPath(node, p, v).value;
    if |p| == 1 {
      GetPut(node, p[0], v, q[0]);
    } else {
      var slot := Get(node, p[0]);
      var c := if slot.None? || !Truthy(slot.value) then [] else slot.value.fields;
      var c2 := SetPath(c, p[1..], v).value;
      GetPut(node, p[0], JObj(c2), q[0]);
      if q[0] == p[0] {
        SetPathKeepsOthers(c, p[1..], v, q[1..]);
        if slot.None? || !Truthy(slot.value) {
          EmptyWalkable(q[1..]);
        }
      }
    }
  }

  lemma {:induction false} UnflattenPathsKeepsOthers(acc: Entries, pl: seq<(Path, Json)>, q: Path)
    requires UnflattenPaths(acc, pl).Some?
    requires forall i :: 0 <= i < |pl| ==> Diverge(pl[i].0, q)
    ensures Lookup(UnflattenPaths(acc, pl).value, q) == Lookup(acc, q)
    decreases |pl|
  {
    if pl != [] {
      var a := SetPath(acc, pl[0].0, pl[0].1).value;
      SetPathKeepsOthers(acc, pl[0].0, pl[0].1, q);
      UnflattenPathsKeepsOthers(a, pl[1..], q);
    }
  }

  lemma {:induction false} UnflattenPathsLookup(acc: Entries, pl: seq<(Path, Json)>)
    requires forall i, j :: 0 <= i < |pl| && 0 <= j < |pl| && i != j ==> Diverge(pl[i].0, pl[j].0)
    requires forall i :: 0 <= i < |pl| ==> Walkable(acc, pl[i].0)
    ensures UnflattenPaths(acc, pl).Some?
    ensures forall i :: 0 <= i < |pl| ==> Lookup(UnflattenPaths(acc, pl).value, pl[i].0) == Some(pl[i].1)
    decreases |pl|
  {
    if pl != [] {
      var p, v := pl[0].0, pl[0].1;
      SetPathSucceeds(acc, p, v);
      var a := SetPath(acc, p, v).value;
      var rest := pl[1..];
      forall i | 0 <= i < |rest| ensures Walkable(a, rest[i].0) {
        SetPathKeepsOthers(acc, p, v, rest[i].0);
      }
      UnflattenPathsLookup(a, rest);
      LookupSetPath(acc, p, v);
      UnflattenPathsKeepsOthers(a, rest, p);
      forall i | 0 <= i < |pl| ensures Lookup(UnflattenPaths(acc, pl).value, pl[i].0) == Some(pl[i].1) {
        if i > 0 { assert pl[i] == rest[i - 1]; }
      }
    }
  }

  /** No key, split on dots, is a prefix of another's split, and no key repeats. */
  predicate NoDottedPrefix(flat: Entries) {
    forall i, j :: 0 <= i < |flat| && 0 <= j < |flat| && i != j ==>
      Diverge(Split(flat[i].0, '.'), Split(flat[j].0, '.'))
  }

  /**
   * When no key is a dotted prefix of another, `unflattenObject` does not
   * throw, and following each key's path through its result finds that key's
   * value.
   */
  lemma UnflattenFindsEveryKey(flat: Entries)
    requires NoDottedPrefix(flat)
    ensures Unflatten(flat).Some?
    ensures forall i :: 0 <= i < |flat| ==> Lookup(Unflatten(flat).value, Split(flat[i].0, '.')) == Some(flat[i].1)
  {
    var pl := SplitKeys(flat);
    forall i | 0 <= i < |pl| ensures Walkable([], pl[i].0) {
      EmptyWalkable(pl[i].0);
    }
    UnflattenPathsLookup([], pl);
  }

  /** `a.b` and `a.c` share the one object created under `a`. */
  lemma SharedPrefixExample()
    ensures Unflatten([("a.b", JNum(1)), ("a.c", JNum(2))]) == Some([("a", JObj([("b", JNum(1)), ("c", JNum(2))]))])
  {
    SplitCons("a", '.', "b");
    SplitNoSep("b", '.');
    assert "a.b" == "a" + ['.'] + "b";
    SplitCons("a", '.', "c");
    SplitNoSep("c", '.');
    assert "a.c" == "a" + ['.'] + "c";
    var pl: seq<(Path, Json)> := SplitKeys([("a.b", JNum(1)), ("a.c", JNum(2))]);
    assert Split("a.b", '.') == ["a", "b"] by { assert ["a"] + ["b"] == ["a", "b"]; }
    assert Split("a.c", '.') == ["a", "c"] by { assert ["a"] + ["c"] == ["a", "c"]; }
    assert pl == [(["a", "b"], JNum(1)), (["a", "c"], JNum(2))];
    var one := [("a", JObj([("b", JNum(1))]))];
    assert SetPath([], ["a", "b"], JNum(1)) == Some(one) by {
      assert ["a", "b"][1..] == ["b"];
    }
    assert SetPath(one, ["a", "c"], JNum(2)) == Some([("a", JObj([("b", JNum(1)), ("c", JNum(2))]))]) by {
      assert ["a", "c"][1..] == ["c"];
      assert Get(one, "a") == Some(JObj([("b", JNum(1))]));
      assert Keys([("b", JNum(1))]) == ["b"];
      assert "c" !in Keys([("b", JNum(1))]);
      PutAbsent([("b", JNum(1))], "c", JNum(2));
      assert Put([("b", JNum(1))], "c", JNum(2)) == [("b", JNum(1)), ("c", JNum(2))];
      assert SetPath([("b", JNum(1))], ["c"], JNum(2)) == Some([("b", JNum(1)), ("c", JNum(2))]);
      assert Truthy(JObj([("b", JNum(1))]));
      assert Put(one, "a", JObj([("b", JNum(1)), ("c", JNum(2))])) == [("a", JObj([("b", JNum(1)), ("c", JNum(2))]))];
    }
    assert |pl[1..][1..]| == 0;
  }

  /**
   * For non-empty, dot-free source keys at every level, a flattened key's
   * nesting level is its leaf's depth below the root. Repeated keys and
   * empty nested objects do not matter here.
   */
  lemma NestedLevelIsDepth(fs: Entries)
    requires GoodKeys(fs)
    ensures |Leaves(fs, "")| == |Paths(fs)|
    ensures forall i :: 0 <= i < |Leaves(fs, "")| ==> GetNestedLevel(Leaves(fs, "")[i].0) == |Paths(fs)[i].0| - 1
  {
    LeavesArePaths(fs, "");
    GoodKeysPaths(fs);
    var pl := Paths(fs);
    var l := Leaves(fs, "");
    forall i | 0 <= i < |l| ensures GetNestedLevel(l[i].0) == |pl[i].0| - 1 {
      JoinFromTop(pl[i].0);
      SplitJoin(pl[i].0, '.');
      SplitLength(l[i].0, '.');
    }
  }

  /** Every key, at every level, is non-empty and free of dots. */
  ghost predicate GoodKeys(es: Entries)
    decreases EntriesSize(es)
  {
    es == [] ||
    (var k, x := es[0].0, es[0].1;
     && k != "" && '.' !in k
     && (x.JObj? ==> (SizeObj(x.fields); GoodKeys(x.fields)))
     && GoodKeys(es[1..]))
  }

  /** Under `GoodKeys`, every path is non-empty and made of good segments. */
  lemma {:induction false} GoodKeysPaths(es: Entries)
    requires GoodKeys(es)
    ensures forall i :: 0 <= i < |Paths(es)| ==> |Paths(es)[i].0| > 0 && GoodSegments(Paths(es)[i].0)
    decreases EntriesSize(es)
  {
    if es != [] {
      var k, x := es[0].0, es[0].1;
      GoodKeysPaths(es[1..]);
      var head: seq<(Path, Json)>;
      if x.JObj? {
        SizeObj(x.fields);
        GoodKeysPaths(x.fields);
        head := Prefixed(k, Paths(x.fields));
        PrefixedGood(k, Paths(x.fields));
      } else {
        head := [([k], x)];
      }
      assert Paths(es) == head + Paths(es[1..]);
    }
  }

  /** Prefixing good paths by a good key keeps them good. */
  lemma PrefixedGood(k: string, pl: seq<(Path, Json)>)
    requires k != "" && '.' !in k
    requires forall i :: 0 <= i < |pl| ==> GoodSegments(pl[i].0)
    ensures forall i :: 0 <= i < |pl| ==> |Prefixed(k, pl)[i].0| > 0 && GoodSegments(Prefixed(k, pl)[i].0)
  {
    forall i | 0 <= i < |pl| ensures GoodSegments(Prefixed(k, pl)[i].0) {
      var p := pl[i].0;
      var q := Prefixed(k, pl)[i].0;
      assert q == [k] + p;
      forall j | 0 <= j < |q| ensures q[j] != "" && '.' !in q[j] {
        if j > 0 { assert q[j] == p[j - 1]; }
      }
    }
  }

  // ---------------------------------------------------------------------------
  // getInputType

  /**
   * The object `getInputType` returns: its `type` property (`None` for
   * `undefined`) and the other properties, in order.
   */
  datatype FieldType = FieldType(typ: Option<Json>, props: Entries)

  function Kind(name: string): FieldType {
    FieldType(Some(JStr(name)), [])
  }

  /** The entries of `es` apart from those under key `k`. */
  function Without(es: Entries, k: string): (r: Entries)
    ensures forall e :: e in r <==> e in es && e.0 != k
  {
    if es == [] then [] else (if es[0].0 == k then [] else [es[0]]) + Without(es[1..], k)
  }

  /** `{ type: c.type, ...c }`: `type` first, then the other own properties of `c`. */
  function OverrideType(c: Json): FieldType {
    FieldType(Member(c, "type"), Without(OwnEntries(c), "type"))
  }

  /** `/^\d{4}-\d{2}-\d{2}$/` */
  predicate IsDateShaped(s: string) {
    |s| == 10
    && IsDigit(s[0]) && IsDigit(s[1]) && IsDigit(s[2]) && IsDigit(s[3]) && s[4] == '-'
    && IsDigit(s[5]) && IsDigit(s[6]) && s[7] == '-' && IsDigit(s[8]) && IsDigit(s[9])
  }

  predicate KeyMentions(key: string, word: string) {
    Contains(ToLower(key), word)
  }

  predicate HasOverride(key: string, fieldConfig: Entries) {
    Get(fieldConfig, key).Some? && Truthy(Get(fieldConfig, key).value)
  }

  /** `getInputType(value, key, fieldConfig)`, lib/utils/jsonUtils.js:61-101 */
  function GetInputType(value: Json, key: string, fieldConfig: Entries): FieldType {
    if HasOverride(key, fieldConfig) then OverrideType(Get(fieldConfig, key).value)
    else match value
      case JBool(_) => Kind("checkbox")
      case JNum(_) => Kind("number")
      case JArr(_) => FieldType(Some(JStr("array")), [("items", value)])
      case JObj(_) => Kind("object")
      case JNull => Kind("text")
      case JStr(s) =>
        if |s| > 100 then FieldType(Some(JStr("textarea")), [("rows", JNum(4))])
        else if '@' in s || KeyMentions(key, "email") then Kind("email")
        else if StartsWith(s, "http") || KeyMentions(key, "url") then Kind("url")
        else if IsDateShaped(s) || KeyMentions(key, "date") then Kind("date")
        else if KeyMentions(key, "password") then Kind("password")
        else Kind("text")
  }

  /**
   * A truthy `fieldConfig[key]` decides alone: the value is not looked at, the
   * type is the override's `type`, and the other properties are exactly the
   * override's own properties besides `type`.
   */
  lemma OverrideWins(value: Json, other: Json, key: string, fieldConfig: Entries)
    requires HasOverride(key, fieldConfig)
    ensures GetInputType(value, key, fieldConfig) == GetInputType(other, key, fieldConfig)
    ensures var c := Get(fieldConfig, key).value;
      && GetInputType(value, key, fieldConfig).typ == Member(c, "type")
      && forall e :: e in GetInputType(value, key, fieldConfig).props <==> e in OwnEntries(c) && e.0 != "type"
  {
  }

  /**
   * Without an override, a non-string's type follows from its JavaScript type
   * alone, whatever the key: the key-name heuristics apply only to strings.
   */
  lemma NonStringTypes(value: Json, key: string, fieldConfig: Entries, key2: string)
    requires !HasOverride(key, fieldConfig) && !HasOverride(key2, fieldConfig) && !value.JStr?
    ensures GetInputType(value, key, fieldConfig) == GetInputType(value, key2, fieldConfig)
    ensures value.JBool? ==> GetInputType(value, key, fieldConfig) == Kind("checkbox")
    ensures value.JNum? ==> GetInputType(value, key, fieldConfig) == Kind("number")
    ensures value.JArr? ==> GetInputType(value, key, fieldConfig) == FieldType(Some(JStr("array")), [("items", value)])
    ensures value.JObj? ==> GetInputType(value, key, fieldConfig) == Kind("object")
    ensures value.JNull? ==> GetInputType(value, key, fieldConfig) == Kind("text")
  {
  }

  /**
   * For a string without an override the first matching rule wins, so each
   * type is chosen exactly when its own cue holds and no earlier rule's does.
   */
  lemma StringPrecedence(s: string, key: string, fieldConfig: Entries)
    requires !HasOverride(key, fieldConfig)
    ensures var r := GetInputType(JStr(s), key, fieldConfig);
      var long := |s| > 100;
      var email := '@' in s || KeyMentions(key, "email");
      var url := StartsWith(s, "http") || KeyMentions(key, "url");
      var date := IsDateShaped(s) || KeyMentions(key, "date");
      var password := KeyMentions(key, "password");
      && (r == FieldType(Some(JStr("textarea")), [("rows", JNum(4))]) <==> long)
      && (r == Kind("email") <==> !long && email)
      && (r == Kind("url") <==> !long && !email && url)
      && (r == Kind("date") <==> !long && !email && !url && date)
      && (r == Kind("password") <==> !long && !email && !url && !date && password)
      && (r == Kind("text") <==> !long && !email && !url && !date && !password)
  {
  }

  lemma EmailBeatsUrlKey()
    ensures GetInputType(JStr("a@b.c"), "website_url", []) == Kind("email")
  {
    assert "a@b.c"[1] == '@';
  }

  lemma DateShapedString()
    ensures GetInputType(JStr("2024-01-31"), "", []) == Kind("date")
  {
    assert IsDateShaped("2024-01-31");
    assert '@' !in "2024-01-31";
    assert !StartsWith("2024-01-31", "http");
    assert !KeyMentions("", "email") && !KeyMentions("", "url");
  }

  lemma UrlBeatsDateKey()
    ensures GetInputType(JStr("http://x"), "dueDate", []) == Kind("url")
  {
    assert StartsWith("http://x", "http");
    assert '@' !in "http://x";
    assert ToLower("dueDate") == "duedate";
    NotContains("duedate", "email", 'm');
  }

  lemma OverrideExample()
    ensures GetInputType(JStr("x"), "a", [("a", JObj([("type", JStr("slider")), ("min", JNum(0))]))])
      == FieldType(Some(JStr("slider")), [("min", JNum(0))])
  {
    assert Keys([("a", JObj([("type", JStr("slider")), ("min", JNum(0))]))]) == ["a"];
  }

  // ---------------------------------------------------------------------------
  // getDisplayName

  /** `.replace(/([A-Z])/g, ' $1')` */
  function SpaceBeforeCapitals(s: string): (r: string)
    ensures forall c :: c in r ==> c in s || c == ' '
  {
    if s == [] then []
    else (if IsAsciiUpper(s[0]) then [' ', s[0]] else [s[0]]) + SpaceBeforeCapitals(s[1..])
  }

  /** `.replace(/[_-]/g, ' ')` */
  function ReplaceSeparators(s: string): (r: string)
    ensures |r| == |s|
    ensures forall i :: 0 <= i < |s| ==> r[i] == (if s[i] == '_' || s[i] == '-' then ' ' else s[i])
  {
    seq(|s|, i requires 0 <= i < |s| => if s[i] == '_' || s[i] == '-' then ' ' else s[i])
  }

  /** `\b\w`: a word character not preceded by one. */
  predicate WordStart(s: string, i: int)
    requires 0 <= i < |s|
  {
    IsWordChar(s[i]) && (i == 0 || !IsWordChar(s[i - 1]))
  }

  /** `.replace(/\b\w/g, l => l.toUpperCase())` */
  function CapitalizeWords(s: string): (r: string)
    ensures |r| == |s|
  {
    seq(|s|, i requires 0 <= i < |s| => if WordStart(s, i) then ToUpperChar(s[i]) else s[i])
  }

  /** `getDisplayName(key)`, lib/utils/jsonUtils.js:141-149 */
  function GetDisplayName(key: string): string {
    Trim(CapitalizeWords(ReplaceSeparators(SpaceBeforeCapitals(Last(Split(key, '.'))))))
  }

  /** No word of the capitalized text starts with a lower-case letter. */
  lemma CapitalizedWords(s: string)
    ensures forall i :: 0 <= i < |s| ==> (WordStart(CapitalizeWords(s), i) <==> WordStart(s, i))
    ensures forall i :: 0 <= i < |s| && WordStart(CapitalizeWords(s), i) ==> !IsAsciiLower(CapitalizeWords(s)[i])
    ensures forall c :: c in CapitalizeWords(s) ==> c in s || IsAsciiUpper(c)
  {
  }

  predicate WordsCapitalized(s: string) {
    forall i :: 0 <= i < |s| && WordStart(s, i) ==> !IsAsciiLower(s[i])
  }

  /** Trimming cuts only at whitespace, so it makes no new word starts. */
  lemma TrimKeepsWordsCapitalized(t: string)
    requires WordsCapitalized(t)
    ensures WordsCapitalized(Trim(t))
  {
    var a, e := TrimSlice(t);
    var r := Trim(t);
    forall i | 0 <= i < |r| && WordStart(r, i) ensures !IsAsciiLower(r[i]) {
      WordStartInSlice(t, a, e, i);
    }
  }

  /** The trimmed text is a slice after whitespace or at the start. */
  lemma TrimSlice(t: string) returns (a: nat, e: nat)
    ensures a <= e <= |t| && Trim(t) == t[a..e]
    ensures a > 0 ==> IsJsWhitespace(t[a - 1])
  {
    a := LeadingSpace(t);
    var u := t[a..];
    e := a + |u| - TrailingSpace(u);
    assert u[..|u| - TrailingSpace(u)] == t[a..e];
  }

  /** A word start in a slice that follows whitespace or the start is a word start of the whole. */
  lemma WordStartInSlice(t: string, a: nat, e: nat, i: nat)
    requires a <= e <= |t| && (a > 0 ==> IsJsWhitespace(t[a - 1]))
    requires i < e - a && WordStart(t[a..e], i)
    ensures WordStart(t, a + i) && t[a..e][i] == t[a + i]
  {
    if i > 0 {
      assert t[a..e][i - 1] == t[a + i - 1];
    }
  }

  /**
   * The display name has no `_` or `-`, no whitespace at either end, and no
   * word of it starts with a lower-case letter.
   */
  lemma DisplayNameShape(key: string)
    ensures var d := GetDisplayName(key);
      && '_' !in d && '-' !in d
      && (|d| > 0 ==> !IsJsWhitespace(d[0]) && !IsJsWhitespace(d[|d| - 1]))
      && WordsCapitalized(d)
  {
    var t := ReplaceSeparators(SpaceBeforeCapitals(Last(Split(key, '.'))));
    NoSeparatorsLeft(t);
    CapitalizedWords(t);
    TrimKeepsWordsCapitalized(CapitalizeWords(t));
  }

  /** After the separators are replaced, capitalising and trimming bring none back. */
  lemma NoSeparatorsLeft(t: string)
    requires forall i :: 0 <= i < |t| ==> t[i] != '_' && t[i] != '-'
    ensures '_' !in Trim(CapitalizeWords(t)) && '-' !in Trim(CapitalizeWords(t))
  {
    CapitalizedWords(t);
  }

  /** Only the last `.`-segment matters. */
  lemma DisplayNameOfLastSegment(path: string, segment: string)
    ensures GetDisplayName(path + "." + segment) == GetDisplayName(segment)
  {
    LastSplitAfterSep(path, '.', segment);
    assert path + "." + segment == path + ['.'] + segment;
  }

  lemma {:induction false} SpaceBeforeCapitalsConcat(a: string, b: string)
    ensures SpaceBeforeCapitals(a + b) == SpaceBeforeCapitals(a) + SpaceBeforeCapitals(b)
  {
    if a == [] {
      assert a + b == b;
    } else {
      assert (a + b)[0] == a[0] && (a + b)[1..] == a[1..] + b;
      SpaceBeforeCapitalsConcat(a[1..], b);
    }
  }

  lemma {:induction false} SpaceBeforeCapitalsNoUpper(s: string)
    requires forall i :: 0 <= i < |s| ==> !IsAsciiUpper(s[i])
    ensures SpaceBeforeCapitals(s) == s
  {
    if s != [] {
      SpaceBeforeCapitalsNoUpper(s[1..]);
      assert [s[0]] + s[1..] == s;
    }
  }

  lemma CapitalizeFirstName(t: string)
    requires t == "first name" || t == "first Name"
    ensures CapitalizeWords(t) == "First Name"
  {
    assert WordStart(t, 0) && WordStart(t, 6);
    forall i | 0 <= i < |t| && i != 0 && i != 6 ensures !WordStart(t, i) {
    }
  }

  lemma TrimFirstName()
    ensures Trim("First Name") == "First Name"
  {
    assert LeadingSpace("First Name") == 0;
    assert TrailingSpace("First Name") == 0;
    assert "First Name"[0..] == "First Name";
    assert "First Name"[..10] == "First Name";
  }

  lemma DisplayNameSnakeCase(key: string)
    requires key == "first_name"
    ensures GetDisplayName(key) == "First Name"
  {
    SplitNoSep(key, '.');
    var seg := Last(Split(key, '.'));
    assert seg == key;
    SpaceBeforeCapitalsNoUpper(seg);
    var t := ReplaceSeparators(seg);
    assert t == "first name";
    CapitalizeFirstName(t);
    TrimFirstName();
  }

  lemma SpaceInFirstName(seg: string)
    requires seg == "firstName"
    ensures SpaceBeforeCapitals(seg) == "first Name"
  {
    var a, b, c := seg[..5], seg[5..6], seg[6..];
    assert seg == a + b + c;
    SpaceBeforeCapitalsConcat(a + b, c);
    SpaceBeforeCapitalsConcat(a, b);
    SpaceBeforeCapitalsNoUpper(a);
    SpaceBeforeCapitalsNoUpper(c);
    assert b == [b[0]] && IsAsciiUpper(b[0]) && b[1..] == [];
    assert SpaceBeforeCapitals(b) == [' ', b[0]];
  }

  lemma DisplayNameFirstName(seg: string)
    requires seg == "firstName"
    ensures GetDisplayName(seg) == "First Name"
  {
    SplitNoSep(seg, '.');
    SpaceInFirstName(seg);
    var t := SpaceBeforeCapitals(seg);
    assert ReplaceSeparators(t) == t;
    CapitalizeFirstName(t);
    TrimFirstName();
  }

  lemma DisplayNameCamelCase(key: string)
    requires key == "user.firstName"
    ensures GetDisplayName(key) == "First Name"
  {
    var path, seg := key[..4], key[5..];
    assert key == path + "." + seg;
    DisplayNameOfLastSegment(path, seg);
    DisplayNameFirstName(seg);
  }
}
