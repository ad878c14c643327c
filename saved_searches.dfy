/** Saved searches (src/lib/savedSearches.ts, src/hooks/useSavedSearches.ts): the record, the
    collection the hook holds and writes back to storage after every change, and the two
    orderings by last use (the hook's `getRecents` and the saved-search panel's list). */
module SavedSearches {
  import opened Wrappers
  import opened Text
  import opened Types

  /** A timestamp as `Date.parse` reads it: milliseconds since the epoch, or `None` when the
      stored text is missing or does not parse. */
  type Time = Option<int>

  /** One saved search. */
  datatype SavedSearch = SavedSearch(
    id: string,
    name: string,
    isExample: Option<bool>,
    shortDescription: Option<string>,
    queryString: string,
    state: BuilderState,
    createdAt: Time,
    updatedAt: Time,
    lastUsedAt: Time)

  /** What the hook holds and persists. */
  datatype Collection = Collection(version: int, items: seq<SavedSearch>)

  /** `SAVED_SEARCHES_EXPORT_TYPE` and `SAVED_SEARCHES_EXPORT_VERSION`. */
  const ExportType := "boolean-builder-saved-searches"
  const ExportVersion := 1

  /** The argument of `create`. */
  datatype CreateInput = CreateInput(name: string, shortDescription: Option<string>, state: BuilderState, queryString: string)

  /** The argument of `update`: the fields present (`Some`) overwrite the item's. */
  datatype Patch = Patch(name: Option<string>, shortDescription: Option<string>, state: Option<BuilderState>, queryString: Option<string>)

  /** The record `create` builds: all three timestamps are `now`. */
  function NewItem(input: CreateInput, id: string, now: int): (r: SavedSearch)
    ensures r.id == id && r.name == input.name && r.queryString == input.queryString && r.state == input.state
    ensures r.shortDescription == input.shortDescription && r.isExample.None?
    ensures r.createdAt == r.updatedAt == r.lastUsedAt == Some(now)
  {
    SavedSearch(id, input.name, None, input.shortDescription, input.queryString, input.state, Some(now), Some(now), Some(now))
  }

  /** One item after `update`: the supplied fields are copied in, and `updatedAt` becomes `now`
      only when the state or the query string was supplied. */
  function Patched(item: SavedSearch, patch: Patch, now: int): (r: SavedSearch)
    ensures r.id == item.id && r.isExample == item.isExample
    ensures r.createdAt == item.createdAt && r.lastUsedAt == item.lastUsedAt
    ensures r.name == patch.name.GetOr(item.name) && r.queryString == patch.queryString.GetOr(item.queryString)
    ensures r.state == patch.state.GetOr(item.state)
    ensures r.shortDescription == (if patch.shortDescription.Some? then patch.shortDescription else item.shortDescription)
    ensures r.updatedAt == (if patch.state.Some? || patch.queryString.Some? then Some(now) else item.updatedAt)
  {
    var touched := patch.state.Some? || patch.queryString.Some?;
    item.(
      name := patch.name.GetOr(item.name),
      shortDescription := if patch.shortDescription.Some? then patch.shortDescription else item.shortDescription,
      state := patch.state.GetOr(item.state),
      queryString := patch.queryString.GetOr(item.queryString),
      updatedAt := if touched then Some(now) else item.updatedAt)
  }

  /** The items after `update(id, patch)`: every item with the id is patched. */
  function UpdateItems(items: seq<SavedSearch>, id: string, patch: Patch, now: int): (r: seq<SavedSearch>)
    ensures |r| == |items|
    ensures forall k :: 0 <= k < |items| ==> r[k] == if items[k].id == id then Patched(items[k], patch, now) else items[k]
  {
    seq(|items|, k requires 0 <= k < |items| => if items[k].id == id then Patched(items[k], patch, now) else items[k])
  }

  /** The items after `markUsed(id)`: every item with the id gets `lastUsedAt = now`. */
  function MarkUsedItems(items: seq<SavedSearch>, id: string, now: int): (r: seq<SavedSearch>)
    ensures |r| == |items|
    ensures forall k :: 0 <= k < |items| ==>
      && r[k].lastUsedAt == (if items[k].id == id then Some(now) else items[k].lastUsedAt)
      && r[k] == items[k].(lastUsedAt := r[k].lastUsedAt)
  {
    seq(|items|, k requires 0 <= k < |items| => if items[k].id == id then items[k].(lastUsedAt := Some(now)) else items[k])
  }

  /** The items after `deleteSearch(id)` (`items.filter(item => item.id !== id)`). */
  function WithoutItem(items: seq<SavedSearch>, id: string): (r: seq<SavedSearch>)
    ensures |r| <= |items|
    ensures forall x :: x in r <==> x in items && x.id != id
  {
    if items == [] then []
    else (if items[0].id != id then [items[0]] else []) + WithoutItem(items[1..], id)
  }

  /** A name-only update never moves `updatedAt`, whatever the time. */
  lemma RenameKeepsUpdatedAt(items: seq<SavedSearch>, id: string, name: string, now: int)
    ensures forall k :: 0 <= k < |items| ==>
      UpdateItems(items, id, Patch(Some(name), None, None, None), now)[k].updatedAt == items[k].updatedAt
  {
  }

  /** An update of an id no item has changes nothing. */
  lemma UpdateUnknownId(items: seq<SavedSearch>, id: string, patch: Patch, now: int)
    requires forall k :: 0 <= k < |items| ==> items[k].id != id
    ensures UpdateItems(items, id, patch, now) == items
  {
  }

  /** Deleting keeps the other items in their order: deleting from `xs + ys` deletes from each. */
  lemma {:induction false} WithoutItemAppend(xs: seq<SavedSearch>, ys: seq<SavedSearch>, id: string)
    ensures WithoutItem(xs + ys, id) == WithoutItem(xs, id) + WithoutItem(ys, id)
  {
    if xs == [] {
      assert xs + ys == ys;
    } else {
      assert (xs + ys)[1..] == xs[1..] + ys;
      WithoutItemAppend(xs[1..], ys, id);
    }
  }

  /** Deleting an id no item has changes nothing. */
  lemma {:induction false} WithoutUnknownItem(items: seq<SavedSearch>, id: string)
    requires forall k :: 0 <= k < |items| ==> items[k].id != id
    ensures WithoutItem(items, id) == items
  {
    if items != [] {
      WithoutUnknownItem(items[1..], id);
    }
  }

  /** Deleting right after creating gives back the items from before, when the new id was new. */
  lemma CreateThenDelete(items: seq<SavedSearch>, input: CreateInput, id: string, now: int)
    requires forall k :: 0 <= k < |items| ==> items[k].id != id
    ensures WithoutItem(items + [NewItem(input, id, now)], id) == items
  {
    WithoutItemAppend(items, [NewItem(input, id, now)], id);
    WithoutUnknownItem(items, id);
    assert WithoutItem([NewItem(input, id, now)], id) == [];
  }

  // ---------------------------------------------------------------------------------------------
  // Ordering by last use

  /** Where an item goes in a most-recent-first ordering: a known time, or last. */
  datatype Rank = Known(time: int) | Unknown

  /** `a` must come strictly before `b`: a later time, or a known time before an unknown one. */
  predicate Outranks(a: Rank, b: Rank) {
    (a.Known? && b.Unknown?) || (a.Known? && b.Known? && a.time > b.time)
  }

  /** No item is outranked by an item after it. */
  predicate SortedByRank(xs: seq<SavedSearch>, rank: SavedSearch -> Rank) {
    forall i, j :: 0 <= i < j < |xs| ==> !Outranks(rank(xs[j]), rank(xs[i]))
  }

  /** Insert `x` into a list after every item it does not outrank, so that items of equal rank
      keep their order (the sort is stable). */
  function InsertByRank(x: SavedSearch, sorted: seq<SavedSearch>, rank: SavedSearch -> Rank): seq<SavedSearch> {
    if sorted == [] then [x]
    else if Outranks(rank(x), rank(sorted[0])) then [x] + sorted
    else [sorted[0]] + InsertByRank(x, sorted[1..], rank)
  }

  /** Inserting adds exactly `x`. */
  lemma {:induction false} InsertByRankPermutes(x: SavedSearch, sorted: seq<SavedSearch>, rank: SavedSearch -> Rank)
    ensures multiset(InsertByRank(x, sorted, rank)) == multiset(sorted) + multiset{x}
  {
    if sorted != [] && !Outranks(rank(x), rank(sorted[0])) {
      InsertByRankPermutes(x, sorted[1..], rank);
      assert sorted == [sorted[0]] + sorted[1..];
    }
  }

  /** A sorted list stays sorted under a new head that nothing in it outranks. */
  lemma SortedCons(h: SavedSearch, t: seq<SavedSearch>, rank: SavedSearch -> Rank)
    requires SortedByRank(t, rank)
    requires forall y :: y in t ==> !Outranks(rank(y), rank(h))
    ensures SortedByRank([h] + t, rank)
  {
    var r := [h] + t;
    forall i, j | 0 <= i < j < |r| ensures !Outranks(rank(r[j]), rank(r[i])) {
      assert r[j] == t[j - 1];
      if i > 0 {
        assert r[i] == t[i - 1];
      }
    }
  }

  /** Inserting keeps a sorted list sorted. */
  lemma {:induction false} InsertByRankSorted(x: SavedSearch, sorted: seq<SavedSearch>, rank: SavedSearch -> Rank)
    requires SortedByRank(sorted, rank)
    ensures SortedByRank(InsertByRank(x, sorted, rank), rank)
  {
    if sorted == [] {
    } else if Outranks(rank(x), rank(sorted[0])) {
      forall y | y in sorted ensures !Outranks(rank(y), rank(x)) {
        var j :| 0 <= j < |sorted| && sorted[j] == y;
        if j > 0 {
          assert !Outranks(rank(sorted[j]), rank(sorted[0]));
        }
      }
      SortedCons(x, sorted, rank);
    } else {
      var tail := sorted[1..];
      var rest := InsertByRank(x, tail, rank);
      InsertByRankSorted(x, tail, rank);
      InsertByRankPermutes(x, tail, rank);
      assert SortedByRank(tail, rank) by {
        forall i, j | 0 <= i < j < |tail| ensures !Outranks(rank(tail[j]), rank(tail[i])) {
          assert tail[i] == sorted[i + 1] && tail[j] == sorted[j + 1];
        }
      }
      forall y | y in rest ensures !Outranks(rank(y), rank(sorted[0])) {
        assert y in multiset(rest);
        if y != x {
          assert y in multiset(tail);
          var m :| 0 <= m < |tail| && tail[m] == y;
          assert sorted[m + 1] == y;
        }
      }
      SortedCons(sorted[0], rest, rank);
    }
  }

  /** `Array.prototype.sort` with a comparator that orders by rank: a stable insertion sort. */
  function SortByRank(xs: seq<SavedSearch>, rank: SavedSearch -> Rank): seq<SavedSearch> {
    if xs == [] then [] else InsertByRank(xs[|xs| - 1], SortByRank(xs[..|xs| - 1], rank), rank)
  }

  /** The sorted list is a permutation of the input, ordered by rank. */
  lemma {:induction false} SortByRankSorted(xs: seq<SavedSearch>, rank: SavedSearch -> Rank)
    ensures multiset(SortByRank(xs, rank)) == multiset(xs)
    ensures SortedByRank(SortByRank(xs, rank), rank)
  {
    if xs != [] {
      var init := xs[..|xs| - 1];
      SortByRankSorted(init, rank);
      InsertByRankPermutes(xs[|xs| - 1], SortByRank(init, rank), rank);
      InsertByRankSorted(xs[|xs| - 1], SortByRank(init, rank), rank);
      assert xs == init + [xs[|xs| - 1]];
    }
  }

  /** The rank `getRecents` sorts by: `Date.parse(lastUsedAt) || 0`, so an unparsable time
      counts as the epoch. */
  function RecentRank(s: SavedSearch): Rank {
    Known(s.lastUsedAt.GetOr(0))
  }

  /** The first `n` items of a sorted list are a sub-multiset of it, and nothing left out
      outranks anything kept. */
  lemma SortedPrefixOutranksRest(xs: seq<SavedSearch>, n: nat, rank: SavedSearch -> Rank)
    requires SortedByRank(xs, rank) && n <= |xs|
    ensures multiset(xs[..n]) <= multiset(xs)
    ensures forall x, y :: x in xs[..n] && y in multiset(xs) - multiset(xs[..n]) ==> !Outranks(rank(y), rank(x))
  {
    assert xs == xs[..n] + xs[n..];
    assert multiset(xs) - multiset(xs[..n]) == multiset(xs[n..]);
    forall x, y | x in xs[..n] && y in multiset(xs) - multiset(xs[..n]) ensures !Outranks(rank(y), rank(x)) {
      var i :| 0 <= i < n && xs[..n][i] == x;
      assert y in xs[n..];
      var j :| 0 <= j < |xs| - n && xs[n..][j] == y;
      assert xs[i] == x && xs[n + j] == y;
    }
  }

  /** `Array.prototype.slice(0, end)`: a negative `end` counts from the end of the list. */
  function SliceTo(xs: seq<SavedSearch>, end: int): (r: seq<SavedSearch>)
    ensures end >= 0 ==> |r| == if end < |xs| then end else |xs|
    ensures end < 0 ==> |r| == if |xs| + end > 0 then |xs| + end else 0
    ensures r == xs[..|r|]
  {
    var n := if end >= 0 then (if end < |xs| then end else |xs|) else (if |xs| + end > 0 then |xs| + end else 0);
    xs[..n]
  }

  /** The store behind `useSavedSearches`: the in-memory collection, and (as a ghost) what was last
      written to storage. Every write replaces the collection and persists the new one. */
  class Store {
    var collection: Collection
    ghost var persisted: Collection

    /** The hook starts from what `loadSavedSearches` returned. */
    constructor(loaded: Collection)
      ensures collection == loaded && persisted == loaded
    {
      collection := loaded;
      persisted := loaded;
    }

    /** `create`: append one new item at the end and return it. */
    method Create(input: CreateInput, id: string, now: int) returns (item: SavedSearch)
      modifies this
      ensures item == NewItem(input, id, now)
      ensures collection == old(collection).(items := old(collection.items) + [item])
      ensures persisted == collection
    {
      item := NewItem(input, id, now);
      collection := collection.(items := collection.items + [item]);
      persisted := collection;
    }

    /** `update`: patch every item with the id. */
    method Update(id: string, patch: Patch, now: int)
      modifies this
      ensures collection == old(collection).(items := UpdateItems(old(collection.items), id, patch, now))
      ensures persisted == collection
    {
      collection := collection.(items := UpdateItems(collection.items, id, patch, now));
      persisted := collection;
    }

    /** `deleteSearch`: drop every item with the id. */
    method DeleteSearch(id: string)
      modifies this
      ensures collection == old(collection).(items := WithoutItem(old(collection.items), id))
      ensures persisted == collection
    {
      collection := collection.(items := WithoutItem(collection.items, id));
      persisted := collection;
    }

    /** `markUsed`: stamp every item with the id as used now. */
    method MarkUsed(id: string, now: int)
      modifies this
      ensures collection == old(collection).(items := MarkUsedItems(old(collection.items), id, now))
      ensures persisted == collection
    {
      collection := collection.(items := MarkUsedItems(collection.items, id, now));
      persisted := collection;
    }

    /** `replaceAll`: the collection becomes exactly the given items, at the current version. */
    method ReplaceAll(items: seq<SavedSearch>)
      modifies this
      ensures collection == Collection(ExportVersion, items)
      ensures persisted == collection
    {
      collection := Collection(ExportVersion, items);
      persisted := collection;
    }

    /** `getRecents(limit)`: the items, most recently used first, cut to `limit`. */
    function GetRecents(limit: int): (r: seq<SavedSearch>)
      reads this
      ensures limit >= 0 ==> |r| == if limit < |collection.items| then limit else |collection.items|
      ensures forall x :: x in r ==> x in collection.items
      ensures SortedByRank(r, RecentRank)
      ensures limit >= |collection.items| ==> multiset(r) == multiset(collection.items)
      ensures multiset(r) <= multiset(collection.items)
      ensures forall x, y :: x in r && y in multiset(collection.items) - multiset(r) ==>
        !Outranks(RecentRank(y), RecentRank(x))
    {
      var sorted := SortByRank(collection.items, RecentRank);
      SortByRankSorted(collection.items, RecentRank);
      var r := SliceTo(sorted, limit);
      SortedPrefixOutranksRest(sorted, |r|, RecentRank);
      assert forall x :: x in r ==> x in multiset(sorted);
      assert limit >= |collection.items| ==> r == sorted;
      r
    }

    /** `exportAll`: the export record (before JSON encoding). */
    function ExportAll(exportedAt: int): (r: ExportRecord)
      reads this
      ensures r.kind == ExportType && r.version == ExportVersion && r.items == collection.items
    {
      ExportRecord(ExportType, ExportVersion, exportedAt, collection.items)
    }
  }

  /** The object `exportAll` serialises. */
  datatype ExportRecord = ExportRecord(kind: string, version: int, exportedAt: int, items: seq<SavedSearch>)
}
