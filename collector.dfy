/**
 * The id collector (the first half of `getAllConversations` and `getConversationIds`):
 * reads the first listing page to learn the total, requests the planned pages until the
 * stop offset, deduplicates the gathered items by id, and derives `lastOffset` and the
 * requested-message count.
 *
 * The listing endpoint is the parameter `source`: `source(offset)` is the page answered
 * for that offset, or `None` when the request fails (`"failed to fetch conversation ids"`).
 * The other fields of a listing entry are the type parameter `T`.
 */
module Collector {
  import opened Wrappers
  import Offsets

  /** One entry of a listing page, as the endpoint returns it. */
  datatype Entry<T> = Entry(id: string, fields: T)

  datatype Page<T> = Page(entries: seq<Entry<T>>, total: int)

  /** A listing entry tagged with the offset of the page it came from. */
  datatype Item<T> = Item(id: string, offset: int, fields: T)

  /** What the page loop gathered: all items, the listing total, and the offset plan. */
  datatype Collected<T> = Collected(items: seq<Item<T>>, total: int, offsets: seq<int>)

  /** `json.items.map(item => ({...item, offset}))` */
  function Tag<T>(entries: seq<Entry<T>>, offset: int): (items: seq<Item<T>>)
    ensures |items| == |entries|
    ensures forall k :: 0 <= k < |items| ==>
              items[k] == Item(entries[k].id, offset, entries[k].fields)
  {
    if |entries| == 0 then []
    else [Item(entries[0].id, offset, entries[0].fields)] + Tag(entries[1..], offset)
  }

  /** The offsets the page loop requests: the plan up to, not including, the first `stopOffset`. */
  function PagesRequested(plan: seq<int>, stopOffset: int): (pages: seq<int>)
    ensures |pages| <= |plan| && pages == plan[..|pages|] && stopOffset !in pages
  {
    if |plan| == 0 || plan[0] == stopOffset then []
    else [plan[0]] + PagesRequested(plan[1..], stopOffset)
  }

  /** All items of the pages at `offsets`, in request order, or `None` if some request failed. */
  function FetchPages<T>(source: int -> Option<Page<T>>, offsets: seq<int>): Option<seq<Item<T>>>
  {
    if |offsets| == 0 then Some([])
    else
      match FetchPages(source, offsets[..|offsets| - 1])
      case None => None
      case Some(items) =>
        match source(offsets[|offsets| - 1])
        case None => None
        case Some(page) => Some(items + Tag(page.entries, offsets[|offsets| - 1]))
  }

  /** The outcome of the page phase of `getAllConversations(startOffset, stopOffset)`. */
  function Collect<T>(source: int -> Option<Page<T>>, startOffset: int, stopOffset: int): Option<Collected<T>>
  {
    match source(startOffset)
    case None => None
    case Some(first) =>
      var plan := Offsets.Plan(startOffset, first.total);
      match FetchPages(source, PagesRequested(plan, stopOffset))
      case None => None
      case Some(rest) => Some(Collected(Tag(first.entries, startOffset) + rest, first.total, plan))
  }

  /** The page loop: first page, plan, then one request per planned offset until `stopOffset`. */
  method CollectIds<T>(source: int -> Option<Page<T>>, startOffset: int, stopOffset: int)
    returns (collected: Option<Collected<T>>)
    ensures collected == Collect(source, startOffset, stopOffset)
  {
    var first := source(startOffset);
    if first.None? {
      return None;
    }
    var total := first.value.total;
    var offsets := Offsets.GenerateOffsets(startOffset, total);
    var rest := FetchPlanned(source, offsets, stopOffset);
    if rest.None? {
      return None;
    }
    collected := Some(Collected(Tag(first.value.entries, startOffset) + rest.value, total, offsets));
  }

  /** The `for (const offset of offsets)` loop: stop at `stopOffset`, fail on the first failed page. */
  method FetchPlanned<T>(source: int -> Option<Page<T>>, offsets: seq<int>, stopOffset: int)
    returns (fetched: Option<seq<Item<T>>>)
    ensures fetched == FetchPages(source, PagesRequested(offsets, stopOffset))
  {
    var items: seq<Item<T>> := [];
    var i := 0;
    while i < |offsets|
      invariant 0 <= i <= |offsets|
      invariant stopOffset !in offsets[..i]
      invariant FetchPages(source, offsets[..i]) == Some(items)
    {
      var offset := offsets[i];
      if offset == stopOffset {
        break;
      }
      FetchPagesStep(source, offsets, i);
      var page := source(offset);
      if page.None? {
        PagesRequestedPrefix(offsets, stopOffset, i + 1);
        FetchPagesFailureExtends(source, PagesRequested(offsets, stopOffset), i + 1);
        return None;
      }
      items := items + Tag(page.value.entries, offset);
      i := i + 1;
    }
    PagesRequestedStop(offsets, stopOffset, i);
    fetched := Some(items);
  }

  /** Requesting one more page extends the fetched items by that page, or fails with it. */
  lemma FetchPagesStep<T>(source: int -> Option<Page<T>>, offsets: seq<int>, i: nat)
    requires i < |offsets|
    ensures source(offsets[i]).None? ==> FetchPages(source, offsets[..i + 1]).None?
    ensures FetchPages(source, offsets[..i]).Some? && source(offsets[i]).Some? ==>
              FetchPages(source, offsets[..i + 1]) ==
              Some(FetchPages(source, offsets[..i]).value + Tag(source(offsets[i]).value.entries, offsets[i]))
  {
    assert offsets[..i + 1][..i] == offsets[..i];
  }

  /** The requested pages extend every stop-free prefix of the plan. */
  lemma {:induction false} PagesRequestedPrefix(plan: seq<int>, stopOffset: int, i: nat)
    requires i <= |plan| && stopOffset !in plan[..i]
    ensures i <= |PagesRequested(plan, stopOffset)|
    ensures PagesRequested(plan, stopOffset)[..i] == plan[..i]
  {
    if i > 0 {
      assert plan[0] in plan[..i];
      assert plan[1..][..i - 1] == plan[..i][1..];
      PagesRequestedPrefix(plan[1..], stopOffset, i - 1);
    }
  }

  /** A stop-free prefix that reaches the end or a `stopOffset` is exactly the requested pages. */
  lemma {:induction false} PagesRequestedStop(plan: seq<int>, stopOffset: int, i: nat)
    requires i <= |plan| && stopOffset !in plan[..i]
    requires i == |plan| || plan[i] == stopOffset
    ensures PagesRequested(plan, stopOffset) == plan[..i]
  {
    if i == 0 {
      assert |plan| == 0 || plan[0] == stopOffset;
    } else {
      assert plan[0] in plan[..i];
      assert plan[1..][..i - 1] == plan[..i][1..];
      PagesRequestedStop(plan[1..], stopOffset, i - 1);
      assert plan[..i] == [plan[0]] + plan[..i][1..];
    }
  }

  /**
   * The pages requested after the first are the longest prefix of the plan free of
   * `stopOffset`: the prefix stops at the end of the plan or just before the first stop.
   */
  lemma {:induction false} PagesRequestedIsLongestPrefix(plan: seq<int>, stopOffset: int)
    ensures |PagesRequested(plan, stopOffset)| <= |plan|
    ensures PagesRequested(plan, stopOffset) == plan[..|PagesRequested(plan, stopOffset)|]
    ensures stopOffset !in PagesRequested(plan, stopOffset)
    ensures |PagesRequested(plan, stopOffset)| < |plan| ==> plan[|PagesRequested(plan, stopOffset)|] == stopOffset
  {
    if |plan| > 0 && plan[0] != stopOffset {
      PagesRequestedIsLongestPrefix(plan[1..], stopOffset);
    }
  }

  /** Every planned page is requested when the stop offset is not in the plan (in particular for -1). */
  lemma PagesRequestedAll(plan: seq<int>, stopOffset: int)
    requires stopOffset !in plan
    ensures PagesRequested(plan, stopOffset) == plan
  {
    assert plan[..|plan|] == plan;
    PagesRequestedStop(plan, stopOffset, |plan|);
  }

  /** With a non-negative start, the sentinel -1 never occurs in the plan, so every page is requested. */
  lemma PagesRequestedUnbounded(startOffset: int, total: int)
    requires startOffset >= 0
    ensures PagesRequested(Offsets.Plan(startOffset, total), -1) == Offsets.Plan(startOffset, total)
  {
    Offsets.PlanShape(startOffset, total);
    PagesRequestedAll(Offsets.Plan(startOffset, total), -1);
  }

  lemma {:induction false} FetchPagesFailureExtends<T>(source: int -> Option<Page<T>>, offsets: seq<int>, i: nat)
    requires i <= |offsets| && FetchPages(source, offsets[..i]).None?
    ensures FetchPages(source, offsets).None?
    decreases |offsets| - i
  {
    if i < |offsets| {
      assert offsets[..i + 1][..i] == offsets[..i];
      FetchPagesFailureExtends(source, offsets, i + 1);
    } else {
      assert offsets[..i] == offsets;
    }
  }

  /** `getRequestCount`: the denominator of the progress percentage. */
  function RequestCount(total: int, startOffset: int, stopOffset: int): int
  {
    if stopOffset == -1 then total else stopOffset - startOffset
  }

  /**
   * When the stop offset is a planned boundary, the request count is the capacity of the
   * pages actually requested: the first page and those before the stop, 20 entries each.
   */
  lemma RequestCountMatchesPages(startOffset: int, total: int, stopOffset: int)
    requires stopOffset != -1 && stopOffset in Offsets.Plan(startOffset, total)
    ensures RequestCount(total, startOffset, stopOffset) ==
            Offsets.PageSize * (|PagesRequested(Offsets.Plan(startOffset, total), stopOffset)| + 1)
  {
    var plan := Offsets.Plan(startOffset, total);
    Offsets.PlanShape(startOffset, total);
    var k :| 0 <= k < |plan| && plan[k] == stopOffset;
    assert stopOffset !in plan[..k] by {
      forall j | 0 <= j < k ensures plan[j] != stopOffset {}
    }
    PagesRequestedStop(plan, stopOffset, k);
  }

  lemma RequestCountExamples()
    ensures RequestCount(100, 0, -1) == 100
    ensures RequestCount(100, 10, 60) == 50
  {
  }

  /** `stopOffset === -1 ? offsets[offsets.length - 1] : stopOffset`; `None` is `undefined`. */
  function LastOffset(offsets: seq<int>, stopOffset: int): Option<int>
  {
    if stopOffset != -1 then Some(stopOffset)
    else if |offsets| == 0 then None
    else Some(offsets[|offsets| - 1])
  }

  /**
   * Without a stop offset, `lastOffset` is the largest page boundary not past `total`,
   * and undefined when no page was planned; with one, it is the stop offset itself.
   */
  lemma LastOffsetOfPlan(startOffset: int, total: int, stopOffset: int)
    ensures stopOffset != -1 ==> LastOffset(Offsets.Plan(startOffset, total), stopOffset) == Some(stopOffset)
    ensures stopOffset == -1 && total < startOffset + Offsets.PageSize ==>
              LastOffset(Offsets.Plan(startOffset, total), stopOffset) == None
    ensures stopOffset == -1 && total >= startOffset + Offsets.PageSize ==>
              LastOffset(Offsets.Plan(startOffset, total), stopOffset) ==
              Some(startOffset + Offsets.PageSize * ((total - startOffset) / Offsets.PageSize))
  {
    Offsets.PlanShape(startOffset, total);
  }

  /** The ids of some items, as a set. */
  function IdSet<T>(items: seq<Item<T>>): set<string>
  {
    set k | 0 <= k < |items| :: items[k].id
  }

  /** The index of the first item with `id`, or `|items|` when there is none. */
  function FirstIndex<T>(items: seq<Item<T>>, id: string): (i: nat)
    ensures i <= |items|
    ensures i < |items| ==> items[i].id == id
    ensures forall j :: 0 <= j < i ==> items[j].id != id
  {
    if |items| == 0 then 0
    else if items[0].id == id then 0
    else 1 + FirstIndex(items[1..], id)
  }

  /** The index of the last item with `id`, or -1 when there is none. */
  function LastIndex<T>(items: seq<Item<T>>, id: string): (i: int)
    ensures -1 <= i < |items|
    ensures i >= 0 ==> items[i].id == id
    ensures forall j :: i < j < |items| ==> items[j].id != id
  {
    if |items| == 0 then -1
    else if items[|items| - 1].id == id then |items| - 1
    else LastIndex(items[..|items| - 1], id)
  }

  /**
   * The key order of `new Map(...)` after the first `i` items are set: pairwise distinct,
   * exactly the ids seen so far, in order of first appearance.
   */
  ghost predicate KeyOrder<T>(items: seq<Item<T>>, i: nat, keys: seq<string>, present: set<string>)
    requires i <= |items|
  {
    && |keys| <= i
    && (forall a, b :: 0 <= a < b < |keys| ==> keys[a] != keys[b])
    && (forall k :: 0 <= k < |keys| ==> keys[k] in present && FirstIndex(items, keys[k]) < i)
    && present == IdSet(items[..i])
    && (forall id :: id in present ==> id in keys)
    && (forall a, b :: 0 <= a < b < |keys| ==> FirstIndex(items, keys[a]) < FirstIndex(items, keys[b]))
  }

  /** The values of `new Map(...)` after the first `i` items are set: each the last item set under its key. */
  ghost predicate LastValues<T>(items: seq<Item<T>>, i: nat, values: map<string, Item<T>>)
    requires i <= |items|
  {
    forall id :: id in values ==>
      LastIndex(items[..i], id) >= 0 && values[id] == items[..i][LastIndex(items[..i], id)]
  }

  ghost predicate MapAfter<T>(items: seq<Item<T>>, i: nat, keys: seq<string>, values: map<string, Item<T>>)
    requires i <= |items|
  {
    KeyOrder(items, i, keys, values.Keys) && LastValues(items, i, values)
  }

  lemma IdSetStep<T>(items: seq<Item<T>>, i: nat)
    requires i < |items|
    ensures IdSet(items[..i + 1]) == IdSet(items[..i]) + {items[i].id}
  {
    var item := items[i];
    assert items[..i + 1][i] == item;
    forall x | x in IdSet(items[..i + 1]) ensures x in IdSet(items[..i]) + {item.id} {
      var k :| 0 <= k < i + 1 && items[..i + 1][k].id == x;
      if k < i { assert items[..i][k].id == x; }
    }
    forall x | x in IdSet(items[..i]) ensures x in IdSet(items[..i + 1]) {
      var k :| 0 <= k < i && items[..i][k].id == x;
      assert items[..i + 1][k].id == x;
    }
  }

  /** Setting a key that is not yet present appends it to the key order; a present key keeps its place. */
  lemma KeyOrderStep<T>(items: seq<Item<T>>, i: nat, keys: seq<string>, present: set<string>)
    requires i < |items| && KeyOrder(items, i, keys, present)
    ensures KeyOrder(items, i + 1, if items[i].id in present then keys else keys + [items[i].id],
                     present + {items[i].id})
  {
    IdSetStep(items, i);
    if items[i].id in present {
      KeyOrderKeep(items, i, keys, present);
    } else {
      KeyOrderAppend(items, i, keys, present);
    }
  }

  lemma KeyOrderKeep<T>(items: seq<Item<T>>, i: nat, keys: seq<string>, present: set<string>)
    requires i < |items| && KeyOrder(items, i, keys, present) && items[i].id in present
    requires IdSet(items[..i + 1]) == present + {items[i].id}
    ensures KeyOrder(items, i + 1, keys, present + {items[i].id})
  {
    assert present + {items[i].id} == present;
  }

  lemma KeyOrderAppend<T>(items: seq<Item<T>>, i: nat, keys: seq<string>, present: set<string>)
    requires i < |items| && KeyOrder(items, i, keys, present) && items[i].id !in present
    requires IdSet(items[..i + 1]) == present + {items[i].id}
    ensures KeyOrder(items, i + 1, keys + [items[i].id], present + {items[i].id})
  {
    var id := items[i].id;
    var keys' := keys + [id];
    assert FirstIndex(items, id) == i by {
      forall j | 0 <= j < i ensures items[j].id != id {
        assert items[j] == items[..i][j];
      }
    }
    forall a, b | 0 <= a < b < |keys'|
      ensures keys'[a] != keys'[b] && FirstIndex(items, keys'[a]) < FirstIndex(items, keys'[b])
    {
      if b == |keys| {
        assert keys'[a] == keys[a] && keys[a] in present;
      } else {
        assert keys'[a] == keys[a] && keys'[b] == keys[b];
      }
    }
  }

  /** Setting a key replaces its value with the item just set; other values stay. */
  lemma LastValuesStep<T>(items: seq<Item<T>>, i: nat, values: map<string, Item<T>>)
    requires i < |items| && LastValues(items, i, values)
    ensures LastValues(items, i + 1, values[items[i].id := items[i]])
  {
    var item := items[i];
    var values' := values[item.id := item];
    assert items[..i + 1][..i] == items[..i];
    forall id | id in values'
      ensures LastIndex(items[..i + 1], id) >= 0 && values'[id] == items[..i + 1][LastIndex(items[..i + 1], id)]
    {
      if id != item.id {
        assert LastIndex(items[..i + 1], id) == LastIndex(items[..i], id);
      }
    }
  }

  /** `Map.set` on a new id appends it; on a present id it keeps the position and replaces the value. */
  lemma MapSetStep<T>(items: seq<Item<T>>, i: nat, keys: seq<string>, values: map<string, Item<T>>)
    requires i < |items| && MapAfter(items, i, keys, values)
    ensures MapAfter(items, i + 1, if items[i].id in values then keys else keys + [items[i].id],
                     values[items[i].id := items[i]])
  {
    KeyOrderStep(items, i, keys, values.Keys);
    LastValuesStep(items, i, values);
    assert values[items[i].id := items[i]].Keys == values.Keys + {items[i].id};
  }

  /** The values of the finished map, in key order. */
  function MapValues<T>(keys: seq<string>, values: map<string, Item<T>>): (unique: seq<Item<T>>)
    requires forall k :: 0 <= k < |keys| ==> keys[k] in values
    ensures |unique| == |keys|
    ensures forall k :: 0 <= k < |keys| ==> unique[k] == values[keys[k]]
  {
    if |keys| == 0 then [] else [values[keys[0]]] + MapValues(keys[1..], values)
  }

  lemma MapValuesAreLast<T>(items: seq<Item<T>>, keys: seq<string>, values: map<string, Item<T>>)
    requires MapAfter(items, |items|, keys, values)
    ensures forall k :: 0 <= k < |keys| ==>
              MapValues(keys, values)[k].id == keys[k] &&
              LastIndex(items, keys[k]) >= 0 && MapValues(keys, values)[k] == items[LastIndex(items, keys[k])]
  {
    assert items[..|items|] == items;
  }

  /** A list whose ids are the finished key order inherits its distinctness and order. */
  lemma KeyOrderIds<T>(items: seq<Item<T>>, keys: seq<string>, present: set<string>, unique: seq<Item<T>>)
    requires KeyOrder(items, |items|, keys, present)
    requires |unique| == |keys| && forall k :: 0 <= k < |keys| ==> unique[k].id == keys[k]
    ensures |unique| <= |items|
    ensures forall a, b :: 0 <= a < b < |unique| ==> unique[a].id != unique[b].id
    ensures forall a, b :: 0 <= a < b < |unique| ==> FirstIndex(items, unique[a].id) < FirstIndex(items, unique[b].id)
  {
  }

  /** ... and its set of ids is the set of ids of all items. */
  lemma KeyOrderIdSet<T>(items: seq<Item<T>>, keys: seq<string>, present: set<string>, unique: seq<Item<T>>)
    requires KeyOrder(items, |items|, keys, present)
    requires |unique| == |keys| && forall k :: 0 <= k < |keys| ==> unique[k].id == keys[k]
    ensures IdSet(unique) == IdSet(items)
  {
    assert items[..|items|] == items;
    forall x | x in present ensures x in IdSet(unique) {
      assert x in keys;
      var k :| 0 <= k < |keys| && keys[k] == x;
      assert unique[k].id == x;
    }
    forall x | x in IdSet(unique) ensures x in present {
      var k :| 0 <= k < |unique| && unique[k].id == x;
      assert keys[k] in present;
    }
  }

  /**
   * `Array.from(new Map(allItems.map(i => [i.id, i])).values())`. The map is the pair
   * (`keys` in insertion order, `values`): setting a present key keeps its position and
   * replaces its value.
   */
  method Dedup<T>(items: seq<Item<T>>) returns (unique: seq<Item<T>>)
    ensures |unique| <= |items|
    ensures forall a, b :: 0 <= a < b < |unique| ==> unique[a].id != unique[b].id
    ensures IdSet(unique) == IdSet(items)
    ensures forall a, b :: 0 <= a < b < |unique| ==>
              FirstIndex(items, unique[a].id) < FirstIndex(items, unique[b].id)
    ensures forall k :: 0 <= k < |unique| ==>
              LastIndex(items, unique[k].id) >= 0 && unique[k] == items[LastIndex(items, unique[k].id)]
  {
    var keys: seq<string> := [];
    var values: map<string, Item<T>> := map[];
    assert IdSet(items[..0]) == {};
    for i := 0 to |items|
      invariant MapAfter(items, i, keys, values)
    {
      MapSetStep(items, i, keys, values);
      var item := items[i];
      if item.id !in values {
        keys := keys + [item.id];
      }
      values := values[item.id := item];
    }
    unique := MapValues(keys, values);
    MapValuesAreLast(items, keys, values);
    KeyOrderIds(items, keys, values.Keys, unique);
    KeyOrderIdSet(items, keys, values.Keys, unique);
  }

  /** Items with pairwise-distinct ids have as many distinct ids as items. */
  lemma {:induction false} DistinctIdCount<T>(items: seq<Item<T>>)
    requires forall a, b :: 0 <= a < b < |items| ==> items[a].id != items[b].id
    ensures |IdSet(items)| == |items|
  {
    var n := |items|;
    if n > 0 {
      var prefix := items[..n - 1];
      DistinctIdCount(prefix);
      IdSetStep(items, n - 1);
      assert items[..n] == items;
      assert items[n - 1].id !in IdSet(prefix);
    }
  }

  /** Total 25 from offset 0 without a stop: one more page, at 20, and `lastOffset` 20. */
  lemma CollectExample<T>(source: int -> Option<Page<T>>, first: seq<Entry<T>>, second: seq<Entry<T>>)
    requires source(0) == Some(Page(first, 25)) && source(20).Some? && source(20).value.entries == second
    ensures Collect(source, 0, -1) == Some(Collected(Tag(first, 0) + Tag(second, 20), 25, [20]))
    ensures LastOffset(Collect(source, 0, -1).value.offsets, -1) == Some(20)
  {
    assert Offsets.Plan(0, 25) == [20];
    assert PagesRequested([20], -1) == [20];
    assert [20][..0] == [];
    assert FetchPages(source, [20]) == Some([] + Tag(second, 20));
    assert [] + Tag(second, 20) == Tag(second, 20);
    assert FetchPages(source, PagesRequested(Offsets.Plan(0, 25), -1)) == Some(Tag(second, 20));
  }

  /** Items a@0, b@20, a@20 deduplicate to a@20 then b@20: first position, last value. */
  method DedupExample<T>(x: T, y: T, z: T)
  {
    var items := [Item("a", 0, x), Item("b", 20, y), Item("a", 20, z)];
    assert IdSet(items) == {"a", "b"} by {
      assert items[0].id == "a" && items[1].id == "b";
    }
    assert FirstIndex(items, "a") == 0 && FirstIndex(items, "b") == 1;
    assert LastIndex(items, "a") == 2;
    var unique := Dedup(items);
    DistinctIdCount(unique);
    assert |unique| == 2;
    assert unique[0].id == "a" by {
      assert unique[0].id in {"a", "b"} && unique[1].id in {"a", "b"};
    }
    assert unique[0] == items[2];
  }
}
