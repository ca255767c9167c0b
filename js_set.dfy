/**
 * A JavaScript `Set` as the components use it: `add` ignores a value that is
 * already present and otherwise appends it, and `Array.from` lists the values
 * in insertion order.
 */
module JsSet {

  predicate NoDup<T(==)>(s: seq<T>) {
    forall i, j :: 0 <= i < j < |s| ==> s[i] != s[j]
  }

  /** `set.add(x)` on the insertion-ordered contents. */
  function Add<T(==)>(s: seq<T>, x: T): (r: seq<T>)
    ensures x in r
  {
    if x in s then s else s + [x]
  }

  lemma InAdd<T>(s: seq<T>, x: T, y: T)
    ensures y in Add(s, x) <==> y in s || y == x
  {
  }

  /** `Array.from(new Set(ks))`: every value once, in the order first seen. */
  function FirstSeen<T(==)>(ks: seq<T>): seq<T>
    decreases |ks|
  {
    if ks == [] then [] else Add(FirstSeen(ks[..|ks| - 1]), ks[|ks| - 1])
  }

  /** The first position of `x` in `ks`. */
  function FirstIndex<T(==)>(ks: seq<T>, x: T): (n: nat)
    requires x in ks
    ensures n < |ks| && ks[n] == x
    ensures forall k :: 0 <= k < n ==> ks[k] != x
  {
    if ks[0] == x then 0 else 1 + FirstIndex(ks[1..], x)
  }

  lemma {:induction false} FirstIndexSnoc<T>(ks: seq<T>, y: T, x: T)
    requires x in ks + [y]
    ensures x in ks ==> FirstIndex(ks + [y], x) == FirstIndex(ks, x)
    ensures x !in ks ==> FirstIndex(ks + [y], x) == |ks|
  {
    var n := FirstIndex(ks + [y], x);
    if x in ks {
      var m := FirstIndex(ks, x);
      assert (ks + [y])[m] == x;
      assert n <= m;
      assert ks[n] == x;
    } else {
      assert n == |ks|;
    }
  }

  /**
   * The contents of the set built by adding `ks` in order: no value twice,
   * exactly the values of `ks`, ordered by where each first occurs.
   */
  lemma FirstSeenSpec<T>(ks: seq<T>)
    ensures NoDup(FirstSeen(ks))
    ensures forall x :: x in FirstSeen(ks) <==> x in ks
    ensures forall i, j :: 0 <= i < j < |FirstSeen(ks)| ==>
      FirstIndex(ks, FirstSeen(ks)[i]) < FirstIndex(ks, FirstSeen(ks)[j])
  {
    FirstSeenMembers(ks);
    FirstSeenOrdered(ks);
  }

  lemma {:induction false} FirstSeenMembers<T>(ks: seq<T>)
    ensures NoDup(FirstSeen(ks))
    ensures forall x :: x in FirstSeen(ks) <==> x in ks
    decreases |ks|
  {
    if ks != [] {
      var p, y := ks[..|ks| - 1], ks[|ks| - 1];
      assert ks == p + [y];
      FirstSeenMembers(p);
    }
  }

  lemma {:induction false} FirstSeenOrdered<T>(ks: seq<T>)
    ensures forall x :: x in FirstSeen(ks) ==> x in ks
    ensures forall i, j :: 0 <= i < j < |FirstSeen(ks)| ==>
      FirstIndex(ks, FirstSeen(ks)[i]) < FirstIndex(ks, FirstSeen(ks)[j])
    decreases |ks|
  {
    FirstSeenMembers(ks);
    if ks != [] {
      var p, y := ks[..|ks| - 1], ks[|ks| - 1];
      assert ks == p + [y];
      FirstSeenOrdered(p);
      FirstSeenMembers(p);
      var r := FirstSeen(p);
      var r2 := FirstSeen(ks);
      forall x | x in r ensures FirstIndex(ks, x) == FirstIndex(p, x) {
        FirstIndexSnoc(p, y, x);
      }
      if y !in r {
        FirstIndexSnoc(p, y, y);
        forall i, j | 0 <= i < j < |r2| ensures FirstIndex(ks, r2[i]) < FirstIndex(ks, r2[j]) {
          if j == |r| {
            assert r2[i] in r;
          } else {
            assert r2[i] == r[i] && r2[j] == r[j];
          }
        }
      }
    }
  }

  /** `ks.forEach(k => set.add(k))` on a set holding the first-seen order of `seen`. */
  method AddEach<T(==)>(s: seq<T>, ghost seen: seq<T>, ks: seq<T>) returns (r: seq<T>)
    requires s == FirstSeen(seen)
    ensures r == FirstSeen(seen + ks)
  {
    r := s;
    var j := 0;
    assert seen + ks[..0] == seen;
    while j < |ks|
      invariant 0 <= j <= |ks|
      invariant r == FirstSeen(seen + ks[..j])
    {
      assert seen + ks[..j + 1] == (seen + ks[..j]) + [ks[j]];
      FirstSeenSnoc(seen + ks[..j], ks[j]);
      r := Add(r, ks[j]);
      j := j + 1;
    }
    assert ks[..|ks|] == ks;
  }

  lemma FirstSeenSnoc<T>(a: seq<T>, x: T)
    ensures FirstSeen(a + [x]) == Add(FirstSeen(a), x)
  {
    assert (a + [x])[..|a|] == a;
  }

  /** A list without repeats is its own first-seen order. */
  lemma {:induction false} FirstSeenOfDistinct<T>(ks: seq<T>)
    requires NoDup(ks)
    ensures FirstSeen(ks) == ks
    decreases |ks|
  {
    if ks != [] {
      var p, y := ks[..|ks| - 1], ks[|ks| - 1];
      forall i, j | 0 <= i < j < |p| ensures p[i] != p[j] {
        assert p[i] == ks[i] && p[j] == ks[j];
      }
      FirstSeenOfDistinct(p);
      forall i | 0 <= i < |p| ensures p[i] != y {
        assert p[i] == ks[i];
      }
      assert ks == p + [y];
    }
  }

  /** Adding values already present changes nothing. */
  lemma {:induction false} FirstSeenExtend<T>(a: seq<T>, b: seq<T>)
    requires forall x :: x in b ==> x in a
    ensures FirstSeen(a + b) == FirstSeen(a)
    decreases |b|
  {
    if b == [] {
      assert a + b == a;
    } else {
      var p := b[..|b| - 1];
      assert (a + b)[..|a + b| - 1] == a + p;
      FirstSeenExtend(a, p);
      FirstSeenSpec(a);
    }
  }

  /** `[].concat(...kss)` */
  function Concat<T>(kss: seq<seq<T>>): (r: seq<T>)
    decreases |kss|
  {
    if kss == [] then [] else Concat(kss[..|kss| - 1]) + kss[|kss| - 1]
  }

  /** An element of the concatenation comes from one of the pieces, and back. */
  lemma {:induction false} InConcat<T>(kss: seq<seq<T>>, x: T)
    ensures x in Concat(kss) <==> exists i :: 0 <= i < |kss| && x in kss[i]
    decreases |kss|
  {
    if kss != [] {
      var p := kss[..|kss| - 1];
      InConcat(p, x);
      if x in Concat(kss) && x !in kss[|kss| - 1] {
        var i :| 0 <= i < |p| && x in p[i];
        assert kss[i] == p[i];
      }
      if (exists i :: 0 <= i < |kss| && x in kss[i]) && x !in kss[|kss| - 1] {
        var i :| 0 <= i < |kss| && x in kss[i];
        assert p[i] == kss[i];
      }
    }
  }
}
