/**
 * The collapsible list of lib/components/JsonToList.jsx, without its
 * rendering: which rows are parents, the ids rows and sections are known by,
 * the open/closed state kept in two sets, and which items each section of
 * the list shows.
 */
module LibJsonToList {
  import opened JsonModel
  import opened JsSet

  // ---------------------------------------------------------------------------
  // Rows

  /**
   * `isParent(item)`, lib/components/JsonToList.jsx:112. Reading a property
   * of `null` throws, so items are never `null`.
   */
  predicate IsParent(item: Json)
    requires !item.JNull?
  {
    match Member(item, "children")
    case Some(JArr(children)) => |children| > 0
    case _ => false
  }

  /** Only a non-empty `children` array makes a parent: an empty one, an object or a missing one do not. */
  lemma IsParentCases(x: Json)
    ensures IsParent(JObj([("children", JArr([x]))]))
    ensures !IsParent(JObj([("children", JArr([]))]))
    ensures !IsParent(JObj([("children", JObj([("0", x)]))]))
    ensures !IsParent(JObj([("id", x)]))
    ensures !IsParent(JArr([x]))
  {
  }

  /**
   * `getId(item, idx, parentPath)`, lib/components/JsonToList.jsx:113: the
   * item's own `id` unless it is `null` or `undefined`, else the path and
   * the index as text.
   */
  function GetId(item: Json, idx: nat, parentPath: string): Json
    requires !item.JNull?
  {
    match Member(item, "id")
    case Some(id) => if id.JNull? then JStr(parentPath + NatToString(idx)) else id
    case None => JStr(parentPath + NatToString(idx))
  }

  /** `??` keeps every id that is not nullish, falsy ones such as `0` and `''` included. */
  lemma GetIdSpec(item: Json, idx: nat, parentPath: string)
    requires !item.JNull?
    ensures Member(item, "id").Some? && !Member(item, "id").value.JNull? ==> GetId(item, idx, parentPath) == Member(item, "id").value
    ensures Member(item, "id").None? || Member(item, "id") == Some(JNull) ==>
      GetId(item, idx, parentPath) == JStr(parentPath + NatToString(idx))
  {
  }

  /** Two positions under one path that both fall back to the index get different ids. */
  lemma FallbackIdsDistinct(a: Json, i: nat, b: Json, j: nat, parentPath: string)
    requires !a.JNull? && !b.JNull?
    requires Member(a, "id").None? && Member(b, "id").None?
    requires i != j
    ensures GetId(a, i, parentPath) != GetId(b, j, parentPath)
  {
    if parentPath + NatToString(i) == parentPath + NatToString(j) {
      assert NatToString(i) == (parentPath + NatToString(i))[|parentPath|..];
      assert NatToString(j) == (parentPath + NatToString(j))[|parentPath|..];
      NatToStringInjective(i, j);
    }
  }

  /** The id of a row at `depth` under `parentPath`, as the `Row` component computes it. */
  function RowId(item: Json, index: nat, parentPath: string, depth: nat): Json
    requires !item.JNull?
  {
    GetId(item, index, parentPath + NatToString(depth) + "-")
  }

  /** The path the children of the row with this id are given. */
  function ChildPath(id: Json): string {
    IdText(id) + "-"
  }

  /**
   * A row keeps its own non-null `id`; without one, its id is the parent
   * path, the depth, a dash and the index.
   */
  lemma RowIdSpec(item: Json, index: nat, parentPath: string, depth: nat)
    requires !item.JNull?
    ensures Member(item, "id").Some? && !Member(item, "id").value.JNull? ==>
      RowId(item, index, parentPath, depth) == Member(item, "id").value
    ensures Member(item, "id").None? || Member(item, "id") == Some(JNull) ==>
      RowId(item, index, parentPath, depth) == JStr(parentPath + NatToString(depth) + "-" + NatToString(index))
  {
  }

  /**
   * A child without an `id`, rendered under an open row, gets an id that
   * starts with its parent's id and a dash, then its depth, a dash and its
   * index among the children.
   */
  lemma ChildRowId(child: Json, index: nat, parentId: Json, depth: nat)
    requires !child.JNull? && Member(child, "id").None?
    ensures RowId(child, index, ChildPath(parentId), depth)
      == JStr(IdText(parentId) + "-" + NatToString(depth) + "-" + NatToString(index))
  {
    RowIdSpec(child, index, ChildPath(parentId), depth);
  }

  /** Two children of one row, both without an `id`, at different positions get different ids. */
  lemma ChildRowIdsDistinct(a: Json, i: nat, b: Json, j: nat, parentId: Json, depth: nat)
    requires !a.JNull? && !b.JNull?
    requires Member(a, "id").None? && Member(b, "id").None?
    requires i != j
    ensures RowId(a, i, ChildPath(parentId), depth) != RowId(b, j, ChildPath(parentId), depth)
  {
    FallbackIdsDistinct(a, i, b, j, ChildPath(parentId) + NatToString(depth) + "-");
  }

  /** `String(v)` for the value of an id or a section title. */
  function IdText(v: Json): string
    decreases v, if v.JArr? then |v.items| + 1 else 0
  {
    match v
    case JNull => "null"
    case JBool(b) => if b then "true" else "false"
    case JNum(n) => IntToString(n)
    case JStr(s) => s
    case JObj(_) => "[object Object]"
    case JArr(items) => JoinTexts(items, 0, v)
  }

  /** `items.slice(i).join(',')`, where `null` elements become empty. */
  function JoinTexts(items: seq<Json>, i: nat, ghost parent: Json): string
    requires parent == JArr(items) && i <= |items|
    decreases parent, |items| - i
  {
    if i == |items| then ""
    else
      var t := if items[i].JNull? then "" else IdText(items[i]);
      if i + 1 == |items| then t else t + "," + JoinTexts(items, i + 1, parent)
  }

  // ---------------------------------------------------------------------------
  // Open state

  /** Deleting a present value from a set, or adding an absent one. */
  function Flip(s: set<Json>, x: Json): (r: set<Json>)
    ensures x in r <==> x !in s
    ensures forall y :: y != x ==> (y in r <==> y in s)
  {
    if x in s then s - {x} else s + {x}
  }

  /** Flipping the same value twice restores the set. */
  lemma FlipTwice(s: set<Json>, x: Json)
    ensures Flip(Flip(s, x), x) == s
  {
  }

  /** `baselineOpen`: a section starts open unless `defaultOpen` is `false`, and always when `collapsible` is `false`. */
  predicate Baseline(collapsible: Option<Json>, defaultOpen: Option<Json>) {
    defaultOpen != Some(JBool(false)) || collapsible == Some(JBool(false))
  }

  /** `isOpen`: membership in the set records a departure from the baseline. */
  predicate IsOpen(openSectionIds: set<Json>, id: Json, baseline: bool) {
    if id in openSectionIds then !baseline else baseline
  }

  /** A section is open exactly when its baseline and its membership differ. */
  lemma IsOpenXor(openSectionIds: set<Json>, id: Json, baseline: bool)
    ensures IsOpen(openSectionIds, id, baseline) <==> (baseline != (id in openSectionIds))
  {
  }

  /** Toggling a section id flips that section and no other. */
  lemma ToggleFlipsOneSection(openSectionIds: set<Json>, id: Json, other: Json, b: bool, b2: bool)
    ensures IsOpen(Flip(openSectionIds, id), id, b) == !IsOpen(openSectionIds, id, b)
    ensures other != id ==> IsOpen(Flip(openSectionIds, id), other, b2) == IsOpen(openSectionIds, other, b2)
  {
  }

  /** Whether the header shows its toggle button: `sec.collapsible !== false`. */
  predicate HasToggle(collapsible: Option<Json>) {
    collapsible != Some(JBool(false))
  }

  /**
   * `renderSectionHeader`'s own baseline, computed from the two booleans it
   * is passed, lib/components/JsonToList.jsx:189-190.
   */
  predicate HeaderBaseline(collapsible: bool, defaultOpen: bool) {
    defaultOpen || !collapsible
  }

  /** The header's arrow and the section body agree on the baseline. */
  lemma HeaderAgrees(collapsible: Option<Json>, defaultOpen: Option<Json>)
    ensures HeaderBaseline(HasToggle(collapsible), defaultOpen != Some(JBool(false))) == Baseline(collapsible, defaultOpen)
  {
  }

  /** `!sec.collapsible || isOpen`, lib/components/JsonToList.jsx:226 */
  predicate ShowsItems(collapsible: Option<Json>, isOpen: bool) {
    !(collapsible.Some? && Truthy(collapsible.value)) || isOpen
  }

  /**
   * A section whose `collapsible` is unset has a toggle button, yet shows its
   * items whatever the set holds: only its arrow changes. A section marked
   * collapsible shows its items exactly when it is open.
   */
  lemma CollapsibleShowsItems(collapsible: Option<Json>, defaultOpen: Option<Json>, openSectionIds: set<Json>, id: Json)
    ensures collapsible.None? ==>
      HasToggle(collapsible) && ShowsItems(collapsible, IsOpen(openSectionIds, id, Baseline(collapsible, defaultOpen)))
    ensures collapsible == Some(JBool(true)) ==>
      (ShowsItems(collapsible, IsOpen(openSectionIds, id, Baseline(collapsible, defaultOpen))) <==>
       IsOpen(openSectionIds, id, defaultOpen != Some(JBool(false))))
  {
  }

  /** The two sets of `useState`, lib/components/JsonToList.jsx:109-110. */
  class ListState {
    var openIds: set<Json>
    var openSectionIds: set<Json>

    constructor()
      ensures openIds == {} && openSectionIds == {}
    {
      openIds := {};
      openSectionIds := {};
    }

    /**
     * `toggle(itemId, item)`, lib/components/JsonToList.jsx:132-139: returns
     * the open state it reports to `onToggle`.
     */
    method Toggle(itemId: Json) returns (isOpen: bool)
      modifies this
      ensures openIds == Flip(old(openIds), itemId)
      ensures isOpen <==> itemId in openIds
      ensures isOpen <==> itemId !in old(openIds)
      ensures openSectionIds == old(openSectionIds)
    {
      var next := openIds;
      if itemId in next {
        next := next - {itemId};
      } else {
        next := next + {itemId};
      }
      isOpen := itemId in next;
      openIds := next;
    }

    /** The header button's `toggle`, lib/components/JsonToList.jsx:192-196. */
    method ToggleSection(id: Json)
      modifies this
      ensures openSectionIds == Flip(old(openSectionIds), id)
      ensures openIds == old(openIds)
    {
      if id in openSectionIds {
        openSectionIds := openSectionIds - {id};
      } else {
        openSectionIds := openSectionIds + {id};
      }
    }

    /** `open` in `Row`: only a parent can be open. */
    predicate RowOpen(item: Json, id: Json)
      requires !item.JNull?
      reads this
    {
      IsParent(item) && id in openIds
    }

    /**
     * A click on a row, lib/components/JsonToList.jsx:149: a parent is
     * toggled, a leaf changes nothing and never opens.
     */
    method ClickRow(item: Json, id: Json)
      requires !item.JNull?
      modifies this
      ensures openIds == if IsParent(item) then Flip(old(openIds), id) else old(openIds)
      ensures openSectionIds == old(openSectionIds)
      ensures RowOpen(item, id) <==> IsParent(item) && id !in old(openIds)
    {
      if IsParent(item) {
        var isOpen := Toggle(id);
      }
    }

    /** The sections of the list as they are now, lib/components/JsonToList.jsx:214-275. */
    method RenderSections(data: seq<Json>, sections: Option<seq<Section>>, groupBy: Option<Json -> Json>, sectionOrder: Option<seq<Json>>)
      returns (view: ListView)
      ensures view == View(data, sections, groupBy, sectionOrder, openSectionIds)
    {
      var open := openSectionIds;
      if sections.Some? && |sections.value| > 0 {
        var secs := sections.value;
        view := SectionList(ExplicitView(data, secs, open));
        return;
      }
      if groupBy.Some? {
        var keys, buckets := GroupBuckets(data, groupBy.value);
        var titles := Titles(keys, sectionOrder);
        var out := GroupSectionsOf(data, groupBy.value, titles, buckets, open);
        assert out == GroupView(data, groupBy.value, sectionOrder, open);
        view := SectionList(out);
        return;
      }
      view := PlainList(data);
    }
  }

  /** The group sections of `titles`, in order, each with its bucket. */
  method GroupSectionsOf(data: seq<Json>, groupBy: Json -> Json, titles: seq<Json>, buckets: map<Json, seq<Json>>, open: set<Json>)
    returns (out: seq<SectionView>)
    requires forall t :: t in titles ==> t in buckets && buckets[t] == Bucket(groupBy, data, t)
    ensures |out| == |titles|
    ensures forall i :: 0 <= i < |titles| ==> out[i] == GroupSection(data, groupBy, titles[i], i, open)
  {
    out := [];
    var sIdx := 0;
    while sIdx < |titles|
      invariant 0 <= sIdx <= |titles|
      invariant |out| == sIdx && forall i :: 0 <= i < sIdx ==> out[i] == GroupSection(data, groupBy, titles[i], i, open)
    {
      var title := titles[sIdx];
      var id := GroupSectionId(sIdx, title);
      var isOpen := id !in open;
      out := out + [SectionView(id, title, true, isOpen, isOpen, buckets[title])];
      sIdx := sIdx + 1;
    }
  }

  /** Toggling one row twice gives back both sets as they were. */
  method ToggleTwice(s: ListState, itemId: Json)
    modifies s
    ensures s.openIds == old(s.openIds) && s.openSectionIds == old(s.openSectionIds)
  {
    var first := s.Toggle(itemId);
    var second := s.Toggle(itemId);
    FlipTwice(old(s.openIds), itemId);
  }

  // ---------------------------------------------------------------------------
  // Sections

  /** One entry of the `sections` prop; `filter` stands for a function whose result is taken for its truthiness. */
  datatype Section = Section(
    id: Option<Json>,
    title: Json,
    collapsible: Option<Json>,
    defaultOpen: Option<Json>,
    filter: Option<Json -> bool>)

  /** What a section shows: its id, title, whether it has a toggle, its arrow, whether its items are shown, and the items. */
  datatype SectionView = SectionView(id: Json, title: Json, toggleable: bool, open: bool, shown: bool, items: seq<Json>)

  datatype ListView = SectionList(sections: seq<SectionView>) | PlainList(items: seq<Json>)

  /** `sec.id || \`sec-${sIdx}\``: a falsy id is replaced, unlike a row's. */
  function SectionId(id: Option<Json>, sIdx: nat): Json {
    if id.Some? && Truthy(id.value) then id.value else JStr("sec-" + NatToString(sIdx))
  }

  /** `\`grp-${sIdx}-${title}\`` */
  function GroupSectionId(sIdx: nat, title: Json): Json {
    JStr("grp-" + NatToString(sIdx) + "-" + IdText(title))
  }

  /** `data.filter(f)` */
  function Filter(data: seq<Json>, f: Json -> bool): (r: seq<Json>)
    ensures forall x :: x in r <==> x in data && f(x)
    ensures |r| <= |data|
  {
    if data == [] then [] else (if f(data[0]) then [data[0]] else []) + Filter(data[1..], f)
  }

  /** The kept items occur as often as in the data. */
  lemma {:induction false} FilterCounts(data: seq<Json>, f: Json -> bool)
    ensures forall x :: multiset(Filter(data, f))[x] == if f(x) then multiset(data)[x] else 0
  {
    if data != [] {
      assert data == [data[0]] + data[1..];
      FilterCounts(data[1..], f);
    }
  }

  /** `filter` visits the data in order: one more item is kept at the end, or dropped. */
  lemma {:induction false} FilterSnoc(data: seq<Json>, y: Json, f: Json -> bool)
    ensures Filter(data + [y], f) == Filter(data, f) + (if f(y) then [y] else [])
  {
    if data == [] {
      assert [y][1..] == [];
    } else {
      assert (data + [y])[0] == data[0] && (data + [y])[1..] == data[1..] + [y];
      FilterSnoc(data[1..], y, f);
    }
  }

  /** The items of an explicit section: the filtered data, or all of it. */
  function SectionItems(data: seq<Json>, sec: Section): seq<Json> {
    if sec.filter.Some? then Filter(data, sec.filter.value) else data
  }

  function ExplicitSection(data: seq<Json>, sec: Section, sIdx: nat, openSectionIds: set<Json>): SectionView {
    var id := SectionId(sec.id, sIdx);
    var isOpen := IsOpen(openSectionIds, id, Baseline(sec.collapsible, sec.defaultOpen));
    SectionView(id, sec.title, HasToggle(sec.collapsible), isOpen, ShowsItems(sec.collapsible, isOpen), SectionItems(data, sec))
  }

  function GroupSection(data: seq<Json>, groupBy: Json -> Json, title: Json, sIdx: nat, openSectionIds: set<Json>): SectionView {
    var id := GroupSectionId(sIdx, title);
    SectionView(id, title, true, id !in openSectionIds, id !in openSectionIds, Bucket(groupBy, data, title))
  }

  /** The list `renderSections` describes: explicit sections first, then groups, then all data. */
  function View(data: seq<Json>, sections: Option<seq<Section>>, groupBy: Option<Json -> Json>, sectionOrder: Option<seq<Json>>, openSectionIds: set<Json>): ListView {
    if sections.Some? && |sections.value| > 0 then SectionList(ExplicitView(data, sections.value, openSectionIds))
    else if groupBy.Some? then SectionList(GroupView(data, groupBy.value, sectionOrder, openSectionIds))
    else PlainList(data)
  }

  function ExplicitView(data: seq<Json>, secs: seq<Section>, openSectionIds: set<Json>): (vs: seq<SectionView>)
    ensures |vs| == |secs|
    ensures forall i :: 0 <= i < |secs| ==> vs[i] == ExplicitSection(data, secs[i], i, openSectionIds)
  {
    seq(|secs|, i requires 0 <= i < |secs| => ExplicitSection(data, secs[i], i, openSectionIds))
  }

  function GroupView(data: seq<Json>, groupBy: Json -> Json, sectionOrder: Option<seq<Json>>, openSectionIds: set<Json>): (vs: seq<SectionView>)
    ensures var titles := Titles(FirstSeen(GroupKeys(groupBy, data)), sectionOrder);
      |vs| == |titles| && forall i :: 0 <= i < |titles| ==> vs[i] == GroupSection(data, groupBy, titles[i], i, openSectionIds)
  {
    var titles := Titles(FirstSeen(GroupKeys(groupBy, data)), sectionOrder);
    seq(|titles|, i requires 0 <= i < |titles| => GroupSection(data, groupBy, titles[i], i, openSectionIds))
  }

  // ---------------------------------------------------------------------------
  // Grouping

  /** `groupBy(item) ?? 'Other'`, `null` standing for both nullish results. */
  function GroupKey(groupBy: Json -> Json, item: Json): Json {
    var k := groupBy(item);
    if k.JNull? then JStr("Other") else k
  }

  function GroupKeys(groupBy: Json -> Json, data: seq<Json>): (ks: seq<Json>)
    ensures |ks| == |data|
    ensures forall i :: 0 <= i < |data| ==> ks[i] == GroupKey(groupBy, data[i])
  {
    seq(|data|, i requires 0 <= i < |data| => GroupKey(groupBy, data[i]))
  }

  /** The items pushed into the bucket of `key`, in data order. */
  function Bucket(groupBy: Json -> Json, data: seq<Json>, key: Json): seq<Json>
    decreases |data|
  {
    if data == [] then []
    else
      var last := data[|data| - 1];
      Bucket(groupBy, data[..|data| - 1], key) + (if GroupKey(groupBy, last) == key then [last] else [])
  }

  /** A bucket holds exactly the items with its key. */
  lemma {:induction false} BucketSpec(groupBy: Json -> Json, data: seq<Json>, key: Json)
    ensures forall x :: x in Bucket(groupBy, data, key) <==> x in data && GroupKey(groupBy, x) == key
    decreases |data|
  {
    if data != [] {
      var p := data[..|data| - 1];
      BucketSpec(groupBy, p, key);
      assert data == p + [data[|data| - 1]];
    }
  }

  /** The bucket of a key no item has is empty. */
  lemma {:induction false} BucketAbsent(groupBy: Json -> Json, data: seq<Json>, key: Json)
    requires key !in GroupKeys(groupBy, data)
    ensures Bucket(groupBy, data, key) == []
    decreases |data|
  {
    if data != [] {
      var p := data[..|data| - 1];
      assert GroupKeys(groupBy, data)[|data| - 1] == GroupKey(groupBy, data[|data| - 1]);
      forall i | 0 <= i < |p| ensures GroupKeys(groupBy, p)[i] != key {
        assert GroupKeys(groupBy, data)[i] == GroupKeys(groupBy, p)[i];
      }
      BucketAbsent(groupBy, p, key);
    }
  }

  /**
   * The `forEach` of lib/components/JsonToList.jsx:240-245: the bucket
   * titles in the order `buckets.keys()` lists them, and each bucket's items.
   */
  method GroupBuckets(data: seq<Json>, groupBy: Json -> Json) returns (keys: seq<Json>, buckets: map<Json, seq<Json>>)
    ensures keys == FirstSeen(GroupKeys(groupBy, data))
    ensures forall k :: k in buckets <==> k in keys
    ensures forall k :: k in buckets ==> buckets[k] == Bucket(groupBy, data, k)
  {
    keys := [];
    buckets := map[];
    var i := 0;
    while i < |data|
      invariant 0 <= i <= |data|
      invariant BucketsOf(groupBy, data[..i], keys, buckets)
    {
      var item := data[i];
      var key := GroupKey(groupBy, item);
      var bucket := if key in buckets then buckets[key] else [];
      BucketsNext(groupBy, data, i, keys, buckets);
      buckets := buckets[key := bucket + [item]];
      keys := Add(keys, key);
      i := i + 1;
    }
    BucketsOfDone(groupBy, data, keys, buckets);
  }

  /** One turn of the `forEach`, on the prefixes of `data`. */
  lemma BucketsNext(groupBy: Json -> Json, data: seq<Json>, i: nat, keys: seq<Json>, buckets: map<Json, seq<Json>>)
    requires i < |data| && BucketsOf(groupBy, data[..i], keys, buckets)
    ensures
      var key := GroupKey(groupBy, data[i]);
      BucketsOf(groupBy, data[..i + 1], Add(keys, key), buckets[key := (if key in buckets then buckets[key] else []) + [data[i]]])
  {
    assert data[..i + 1] == data[..i] + [data[i]];
    BucketsStep(groupBy, data[..i], data[i], keys, buckets);
  }

  lemma BucketsOfDone(groupBy: Json -> Json, data: seq<Json>, keys: seq<Json>, buckets: map<Json, seq<Json>>)
    requires BucketsOf(groupBy, data[..|data|], keys, buckets)
    ensures keys == FirstSeen(GroupKeys(groupBy, data))
    ensures forall k :: k in buckets <==> k in keys
    ensures forall k :: k in buckets ==> buckets[k] == Bucket(groupBy, data, k)
  {
    assert data[..|data|] == data;
  }

  /** The state of the `forEach` once the items `p` are placed. */
  ghost predicate BucketsOf(groupBy: Json -> Json, p: seq<Json>, keys: seq<Json>, buckets: map<Json, seq<Json>>) {
    && keys == FirstSeen(GroupKeys(groupBy, p))
    && (forall k :: k in buckets <==> k in keys)
    && BucketsMatch(groupBy, p, buckets)
  }

  /** The map holds the non-empty buckets of the items `p`. */
  ghost predicate BucketsMatch(groupBy: Json -> Json, p: seq<Json>, buckets: map<Json, seq<Json>>) {
    && (forall k :: k in buckets ==> buckets[k] == Bucket(groupBy, p, k))
    && (forall k :: k !in buckets ==> Bucket(groupBy, p, k) == [])
  }

  lemma BucketsStep(groupBy: Json -> Json, p: seq<Json>, x: Json, keys: seq<Json>, buckets: map<Json, seq<Json>>)
    requires BucketsOf(groupBy, p, keys, buckets)
    ensures
      var key := GroupKey(groupBy, x);
      BucketsOf(groupBy, p + [x], Add(keys, key), buckets[key := (if key in buckets then buckets[key] else []) + [x]])
  {
    var key := GroupKey(groupBy, x);
    KeysStep(groupBy, p, x, keys);
    MembersStep(keys, buckets, key, (if key in buckets then buckets[key] else []) + [x]);
    BucketsMatchStep(groupBy, p, x, buckets);
  }

  lemma KeysStep(groupBy: Json -> Json, p: seq<Json>, x: Json, keys: seq<Json>)
    requires keys == FirstSeen(GroupKeys(groupBy, p))
    ensures Add(keys, GroupKey(groupBy, x)) == FirstSeen(GroupKeys(groupBy, p + [x]))
  {
    GroupStep(groupBy, p, x);
  }

  lemma MembersStep(keys: seq<Json>, buckets: map<Json, seq<Json>>, key: Json, b: seq<Json>)
    requires forall k :: k in buckets <==> k in keys
    ensures forall k :: k in buckets[key := b] <==> k in Add(keys, key)
  {
    forall k ensures k in buckets[key := b] <==> k in Add(keys, key) {
      InAdd(keys, key, k);
    }
  }

  lemma BucketsMatchStep(groupBy: Json -> Json, p: seq<Json>, x: Json, buckets: map<Json, seq<Json>>)
    requires BucketsMatch(groupBy, p, buckets)
    ensures var key := GroupKey(groupBy, x);
      BucketsMatch(groupBy, p + [x], buckets[key := (if key in buckets then buckets[key] else []) + [x]])
  {
    var key := GroupKey(groupBy, x);
    var buckets' := buckets[key := (if key in buckets then buckets[key] else []) + [x]];
    forall k | k in buckets' ensures buckets'[k] == Bucket(groupBy, p + [x], k) {
      BucketSnoc(groupBy, p, x, k);
    }
    forall k | k !in buckets' ensures Bucket(groupBy, p + [x], k) == [] {
      BucketSnoc(groupBy, p, x, k);
    }
  }

  /** One more item extends the key list and the first-seen titles. */
  lemma GroupStep(groupBy: Json -> Json, p: seq<Json>, x: Json)
    ensures GroupKeys(groupBy, p + [x]) == GroupKeys(groupBy, p) + [GroupKey(groupBy, x)]
    ensures FirstSeen(GroupKeys(groupBy, p + [x])) == Add(FirstSeen(GroupKeys(groupBy, p)), GroupKey(groupBy, x))
  {
    var ks := GroupKeys(groupBy, p) + [GroupKey(groupBy, x)];
    assert GroupKeys(groupBy, p + [x]) == ks;
    assert ks[..|ks| - 1] == GroupKeys(groupBy, p);
  }

  /** One more item extends its own key's bucket and no other. */
  lemma BucketSnoc(groupBy: Json -> Json, p: seq<Json>, x: Json, k: Json)
    ensures Bucket(groupBy, p + [x], k) == Bucket(groupBy, p, k) + (if GroupKey(groupBy, x) == k then [x] else [])
  {
    assert (p + [x])[..|p|] == p;
  }

  /** `sectionOrder.filter(t => buckets.has(t))` when it is non-empty, else every bucket. */
  function Titles(keys: seq<Json>, sectionOrder: Option<seq<Json>>): seq<Json> {
    if sectionOrder.Some? && |sectionOrder.value| > 0 then
      Filter(sectionOrder.value, t => t in keys)
    else keys
  }

  /**
   * With a non-empty order, the titles are the named buckets that exist, in
   * the order's order and as often as the order names them, and unnamed
   * buckets are not shown; without one, every bucket is a title.
   */
  lemma TitlesSpec(keys: seq<Json>, sectionOrder: Option<seq<Json>>)
    ensures sectionOrder.Some? && |sectionOrder.value| > 0 ==>
      forall t :: t in Titles(keys, sectionOrder) <==> t in sectionOrder.value && t in keys
    ensures sectionOrder.Some? && |sectionOrder.value| > 0 ==>
      forall t :: multiset(Titles(keys, sectionOrder))[t] == if t in keys then multiset(sectionOrder.value)[t] else 0
    ensures forall t :: Titles(keys, Some([t])) == if t in keys then [t] else []
    ensures sectionOrder.Some? && |sectionOrder.value| > 0 ==>
      forall t :: Titles(keys, Some(sectionOrder.value + [t])) ==
        Titles(keys, sectionOrder) + (if t in keys then [t] else [])
    ensures sectionOrder.None? || sectionOrder.value == [] ==> Titles(keys, sectionOrder) == keys
  {
    if sectionOrder.Some? && |sectionOrder.value| > 0 {
      var o := sectionOrder.value;
      FilterCounts(o, t => t in keys);
      forall t ensures Titles(keys, Some(o + [t])) == Titles(keys, sectionOrder) + (if t in keys then [t] else []) {
        FilterSnoc(o, t, t => t in keys);
      }
    }
    forall t ensures Titles(keys, Some([t])) == if t in keys then [t] else [] {
      FilterSnoc([], t, t => t in keys);
    }
  }

  /**
   * With an order, a title the order names twice gives two sections with
   * the same items.
   */
  lemma OrderRepeatsTitle(g: Json -> Json)
    requires g(JStr("x")) == JStr("A")
    ensures var vs := GroupView([JStr("x")], g, Some([JStr("A"), JStr("A")]), {});
      && |vs| == 2
      && vs[0].title == JStr("A") && vs[1].title == JStr("A")
      && vs[0].items == [JStr("x")] && vs[1].items == [JStr("x")]
  {
    var data := [JStr("x")];
    SingleGroup(g, data);
    var keys := FirstSeen(GroupKeys(g, data));
    var order := [JStr("A"), JStr("A")];
    assert Titles(keys, Some(order)) == order by {
      assert order[1..][1..] == [];
    }
  }

  /** With an order, a bucket the order does not name is not shown, so its items are in no section. */
  lemma OrderHidesBucket(g: Json -> Json)
    requires g(JStr("x")) == JStr("A")
    ensures GroupView([JStr("x")], g, Some([JStr("B")]), {}) == []
  {
    var data := [JStr("x")];
    SingleGroup(g, data);
    assert JStr("B") != JStr("A");
    TitleAbsent([JStr("A")], JStr("B"));
    NoTitlesNoSections(data, g, Some([JStr("B")]));
  }

  lemma TitleAbsent(keys: seq<Json>, t: Json)
    requires t !in keys
    ensures Titles(keys, Some([t])) == []
  {
    FilterSnoc([], t, k => k in keys);
  }

  lemma NoTitlesNoSections(data: seq<Json>, g: Json -> Json, order: Option<seq<Json>>)
    requires Titles(FirstSeen(GroupKeys(g, data)), order) == []
    ensures GroupView(data, g, order, {}) == []
  {
  }

  /** One item keyed `A`: one bucket, `A`, holding it. */
  lemma SingleGroup(g: Json -> Json, data: seq<Json>)
    requires data == [JStr("x")] && g(JStr("x")) == JStr("A")
    ensures FirstSeen(GroupKeys(g, data)) == [JStr("A")]
    ensures Bucket(g, data, JStr("A")) == [JStr("x")]
  {
    var ks := GroupKeys(g, data);
    assert ks == [JStr("A")];
    assert ks[..0] == [];
    assert data[..0] == [];
  }

  /** The total size of the buckets of `ts`. */
  function BucketTotal(groupBy: Json -> Json, data: seq<Json>, ts: seq<Json>): nat
    decreases |ts|
  {
    if ts == [] then 0 else BucketTotal(groupBy, data, ts[..|ts| - 1]) + |Bucket(groupBy, data, ts[|ts| - 1])|
  }

  lemma {:induction false} BucketTotalSnoc(groupBy: Json -> Json, data: seq<Json>, x: Json, ts: seq<Json>)
    requires NoDup(ts)
    ensures BucketTotal(groupBy, data + [x], ts) ==
      BucketTotal(groupBy, data, ts) + (if GroupKey(groupBy, x) in ts then 1 else 0)
    decreases |ts|
  {
    var d := data + [x];
    assert d[..|d| - 1] == data;
    if ts != [] {
      var p := ts[..|ts| - 1];
      forall i, j | 0 <= i < j < |p| ensures p[i] != p[j] {
        assert p[i] == ts[i] && p[j] == ts[j];
      }
      BucketTotalSnoc(groupBy, data, x, p);
      assert ts[|ts| - 1] !in p by {
        forall i | 0 <= i < |p| ensures p[i] != ts[|ts| - 1] {
          assert p[i] == ts[i];
        }
      }
      assert ts == p + [ts[|ts| - 1]];
    }
  }

  /** Every item lands in exactly one bucket: together the buckets hold as many items as the data. */
  lemma {:induction false} BucketsPartition(groupBy: Json -> Json, data: seq<Json>)
    ensures BucketTotal(groupBy, data, FirstSeen(GroupKeys(groupBy, data))) == |data|
    decreases |data|
  {
    if data != [] {
      var p, x := data[..|data| - 1], data[|data| - 1];
      assert data == p + [x];
      var y := GroupKey(groupBy, x);
      var ts := FirstSeen(GroupKeys(groupBy, p));
      GroupStep(groupBy, p, x);
      BucketsPartition(groupBy, p);
      FirstSeenMembers(GroupKeys(groupBy, p));
      BucketTotalSnoc(groupBy, p, x, ts);
      if y !in ts {
        BucketTotalNewTitle(groupBy, data, ts, y);
        BucketAbsent(groupBy, p, y);
        BucketSnoc(groupBy, p, x, y);
      }
    }
  }

  /** A new title adds its own bucket to the total. */
  lemma BucketTotalNewTitle(groupBy: Json -> Json, data: seq<Json>, ts: seq<Json>, y: Json)
    ensures BucketTotal(groupBy, data, Add(ts, y)) ==
      BucketTotal(groupBy, data, ts) + (if y in ts then 0 else |Bucket(groupBy, data, y)|)
  {
    if y !in ts {
      var ts2 := ts + [y];
      assert ts2[..|ts2| - 1] == ts;
    }
  }

  // ---------------------------------------------------------------------------
  // What the list shows

  /**
   * A non-empty `sections` prop wins over `groupBy`: one view per section,
   * each listing its filtered items in data order and as often as they
   * occur, so an item can appear in several sections.
   */
  lemma SectionsWin(data: seq<Json>, secs: seq<Section>, groupBy: Option<Json -> Json>, sectionOrder: Option<seq<Json>>, open: set<Json>)
    requires |secs| > 0
    ensures View(data, Some(secs), groupBy, sectionOrder, open).SectionList?
    ensures |View(data, Some(secs), groupBy, sectionOrder, open).sections| == |secs|
    ensures forall i, x :: 0 <= i < |secs| ==>
      (x in View(data, Some(secs), groupBy, sectionOrder, open).sections[i].items <==>
       x in data && Keeps(secs[i], x))
    ensures forall i, x :: 0 <= i < |secs| ==>
      multiset(View(data, Some(secs), groupBy, sectionOrder, open).sections[i].items)[x] ==
      if Keeps(secs[i], x) then multiset(data)[x] else 0
    ensures forall i :: 0 <= i < |secs| ==> View([], Some(secs), groupBy, sectionOrder, open).sections[i].items == []
    ensures forall i, y :: 0 <= i < |secs| ==>
      View(data + [y], Some(secs), groupBy, sectionOrder, open).sections[i].items ==
      View(data, Some(secs), groupBy, sectionOrder, open).sections[i].items + (if Keeps(secs[i], y) then [y] else [])
  {
    forall i, x | 0 <= i < |secs|
      ensures multiset(View(data, Some(secs), groupBy, sectionOrder, open).sections[i].items)[x] ==
        if Keeps(secs[i], x) then multiset(data)[x] else 0
    {
      if secs[i].filter.Some? {
        FilterCounts(data, secs[i].filter.value);
      }
    }
    forall i, y | 0 <= i < |secs|
      ensures View(data + [y], Some(secs), groupBy, sectionOrder, open).sections[i].items ==
        View(data, Some(secs), groupBy, sectionOrder, open).sections[i].items + (if Keeps(secs[i], y) then [y] else [])
    {
      if secs[i].filter.Some? {
        FilterSnoc(data, y, secs[i].filter.value);
      }
    }
  }

  /** Whether a section lists an item: it has no filter, or its filter is truthy on it. */
  predicate Keeps(sec: Section, x: Json) {
    sec.filter.None? || sec.filter.value(x)
  }

  /** Without sections, `groupBy` makes one section per title, each open unless its id is in the set. */
  lemma GroupByWithoutSections(data: seq<Json>, sections: Option<seq<Section>>, groupBy: Json -> Json, sectionOrder: Option<seq<Json>>, open: set<Json>)
    requires sections.None? || sections.value == []
    ensures View(data, sections, Some(groupBy), sectionOrder, open) == SectionList(GroupView(data, groupBy, sectionOrder, open))
    ensures forall i :: 0 <= i < |GroupView(data, groupBy, sectionOrder, open)| ==>
      var sv := GroupView(data, groupBy, sectionOrder, open)[i];
      sv.toggleable && sv.shown == sv.open && (sv.open <==> sv.id !in open)
  {
  }

  /** Without sections or `groupBy` every item is listed, in order. */
  lemma PlainListShowsAll(data: seq<Json>, sections: Option<seq<Section>>, sectionOrder: Option<seq<Json>>, open: set<Json>)
    requires sections.None? || sections.value == []
    ensures View(data, sections, None, sectionOrder, open) == PlainList(data)
  {
  }

  /** In `groupBy` mode without an order, every item is in a section titled with its key. */
  lemma GroupsCoverData(data: seq<Json>, groupBy: Json -> Json, open: set<Json>)
    ensures var vs := GroupView(data, groupBy, None, open);
      forall x :: x in data ==> exists i :: 0 <= i < |vs| && vs[i].title == GroupKey(groupBy, x) && x in vs[i].items
  {
    var titles := FirstSeen(GroupKeys(groupBy, data));
    var vs := GroupView(data, groupBy, None, open);
    assert Titles(titles, None) == titles;
    forall x | x in data ensures exists i :: 0 <= i < |vs| && vs[i].title == GroupKey(groupBy, x) && x in vs[i].items {
      ItemInItsBucket(groupBy, data, x);
      var i := FirstIndex(titles, GroupKey(groupBy, x));
      assert vs[i] == GroupSection(data, groupBy, titles[i], i, open);
    }
  }

  /** Without an order, no two group sections share a title. */
  lemma GroupTitlesDistinct(data: seq<Json>, groupBy: Json -> Json, open: set<Json>)
    ensures var vs := GroupView(data, groupBy, None, open);
      forall i, j :: 0 <= i < j < |vs| ==> vs[i].title != vs[j].title
  {
    var titles := FirstSeen(GroupKeys(groupBy, data));
    var vs := GroupView(data, groupBy, None, open);
    assert Titles(titles, None) == titles;
    assert NoDup(titles) by {
      FirstSeenSpec(GroupKeys(groupBy, data));
    }
    forall i, j | 0 <= i < j < |vs| ensures vs[i].title != vs[j].title {
      assert vs[i].title == titles[i] && vs[j].title == titles[j];
    }
  }

  /** A group section holds only items of its own key, whatever the section order. */
  lemma GroupItemsBelong(data: seq<Json>, groupBy: Json -> Json, sectionOrder: Option<seq<Json>>, open: set<Json>)
    ensures var vs := GroupView(data, groupBy, sectionOrder, open);
      forall i, x :: 0 <= i < |vs| && x in vs[i].items ==> x in data && GroupKey(groupBy, x) == vs[i].title
  {
    var vs := GroupView(data, groupBy, sectionOrder, open);
    forall i | 0 <= i < |vs| ensures forall x :: x in vs[i].items ==> x in data && GroupKey(groupBy, x) == vs[i].title {
      SectionItemsBelong(data, groupBy, vs[i]);
    }
  }

  lemma SectionItemsBelong(data: seq<Json>, groupBy: Json -> Json, sv: SectionView)
    requires sv.items == Bucket(groupBy, data, sv.title)
    ensures forall x :: x in sv.items ==> x in data && GroupKey(groupBy, x) == sv.title
  {
    BucketSpec(groupBy, data, sv.title);
  }

  /** An item's key is a title, and the item is in that title's bucket. */
  lemma ItemInItsBucket(groupBy: Json -> Json, data: seq<Json>, x: Json)
    requires x in data
    ensures GroupKey(groupBy, x) in FirstSeen(GroupKeys(groupBy, data))
    ensures x in Bucket(groupBy, data, GroupKey(groupBy, x))
  {
    var ks := GroupKeys(groupBy, data);
    FirstSeenSpec(ks);
    var k :| 0 <= k < |data| && data[k] == x;
    assert ks[k] == GroupKey(groupBy, x);
    BucketSpec(groupBy, data, GroupKey(groupBy, x));
  }

  /** The group sections have pairwise different ids, so toggling one leaves the others alone. */
  lemma GroupIdsDistinct(i: nat, j: nat, t1: Json, t2: Json)
    requires i != j
    ensures GroupSectionId(i, t1) != GroupSectionId(j, t2)
  {
    var a, b := NatToString(i), NatToString(j);
    var r1, r2 := IdText(t1), IdText(t2);
    if a != b {
      DigitsBeforeDash("grp-", a, b, r1, r2);
    } else {
      NatToStringInjective(i, j);
    }
  }

  /** A run of digits ended by a dash is read back unambiguously. */
  lemma DigitsBeforeDash(p: string, a: string, b: string, r1: string, r2: string)
    requires forall k :: 0 <= k < |a| ==> '0' <= a[k] <= '9'
    requires forall k :: 0 <= k < |b| ==> '0' <= b[k] <= '9'
    requires a != b
    ensures p + a + "-" + r1 != p + b + "-" + r2
  {
    var s1, s2 := p + a + "-" + r1, p + b + "-" + r2;
    if |a| == |b| {
      var k :| 0 <= k < |a| && a[k] != b[k];
      assert s1[|p| + k] == a[k] && s2[|p| + k] == b[k];
    } else if |a| < |b| {
      assert s1[|p| + |a|] == '-' && s2[|p| + |a|] == b[|a|];
    } else {
      assert s2[|p| + |b|] == '-' && s1[|p| + |b|] == a[|b|];
    }
  }
}
