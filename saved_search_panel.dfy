/** The decision logic of the saved-search panel (src/components/SavedSearchPanel.tsx): the list
    order, the name filter, the "last used" label and the rename form. */
module SavedSearchPanel {
  import opened Wrappers
  import opened Text
  import opened SavedSearches

  /** The panel's rank: the parsed `lastUsedAt`, or last of all when it does not parse. */
  function PanelRank(s: SavedSearch): Rank {
    match s.lastUsedAt
    case Some(t) => Known(t)
    case None => Unknown
  }

  /** `sorted`: the saved searches, most recently used first, unparsable times at the end. */
  function Sorted(items: seq<SavedSearch>): (r: seq<SavedSearch>)
    ensures multiset(r) == multiset(items)
    ensures SortedByRank(r, PanelRank)
  {
    SortByRankSorted(items, PanelRank);
    SortByRank(items, PanelRank)
  }

  /** In the panel's order, every item with a parsable time comes before every item without one,
      and the parsable times never increase. */
  lemma SortedOrder(items: seq<SavedSearch>)
    ensures var r := Sorted(items);
      && (forall i, j :: 0 <= i < j < |r| && r[i].lastUsedAt.None? ==> r[j].lastUsedAt.None?)
      && (forall i, j :: 0 <= i < j < |r| && r[i].lastUsedAt.Some? && r[j].lastUsedAt.Some? ==>
            r[i].lastUsedAt.value >= r[j].lastUsedAt.value)
  {
    var r := Sorted(items);
    forall i, j | 0 <= i < j < |r| && r[i].lastUsedAt.None? ensures r[j].lastUsedAt.None? {
      assert !Outranks(PanelRank(r[j]), PanelRank(r[i]));
    }
    forall i, j | 0 <= i < j < |r| && r[i].lastUsedAt.Some? && r[j].lastUsedAt.Some?
      ensures r[i].lastUsedAt.value >= r[j].lastUsedAt.value
    {
      assert !Outranks(PanelRank(r[j]), PanelRank(r[i]));
    }
  }

  /** The items whose lower-cased name contains `query`, in their order. */
  function FilterByName(xs: seq<SavedSearch>, query: string): (r: seq<SavedSearch>)
    ensures |r| <= |xs|
    ensures forall x :: x in r <==> x in xs && Contains(ToLower(x.name), query)
  {
    if xs == [] then []
    else (if Contains(ToLower(xs[0].name), query) then [xs[0]] else []) + FilterByName(xs[1..], query)
  }

  /** The filter over a concatenation is the concatenation of the filtered parts, so the kept
      items keep their order and multiplicity. */
  lemma {:induction false} FilterByNameAppend(xs: seq<SavedSearch>, ys: seq<SavedSearch>, query: string)
    ensures FilterByName(xs + ys, query) == FilterByName(xs, query) + FilterByName(ys, query)
  {
    if xs != [] {
      var h := if Contains(ToLower(xs[0].name), query) then [xs[0]] else [];
      assert (xs + ys)[0] == xs[0] && (xs + ys)[1..] == xs[1..] + ys;
      calc {
        FilterByName(xs + ys, query);
        h + FilterByName(xs[1..] + ys, query);
        { FilterByNameAppend(xs[1..], ys, query); }
        h + (FilterByName(xs[1..], query) + FilterByName(ys, query));
        (h + FilterByName(xs[1..], query)) + FilterByName(ys, query);
      }
    } else {
      assert xs + ys == ys;
    }
  }

  /** One item is kept exactly when its lower-cased name contains the query. */
  lemma FilterByNameSingle(x: SavedSearch, query: string)
    ensures FilterByName([x], query) == if Contains(ToLower(x.name), query) then [x] else []
  {
    assert [x][1..] == [];
  }

  /** Filtering keeps the panel's order. */
  lemma {:induction false} FilterKeepsOrder(xs: seq<SavedSearch>, query: string, rank: SavedSearch -> Rank)
    requires SortedByRank(xs, rank)
    ensures SortedByRank(FilterByName(xs, query), rank)
  {
    if xs != [] {
      var tail := xs[1..];
      assert SortedByRank(tail, rank) by {
        forall i, j | 0 <= i < j < |tail| ensures !Outranks(rank(tail[j]), rank(tail[i])) {
          assert tail[i] == xs[i + 1] && tail[j] == xs[j + 1];
        }
      }
      FilterKeepsOrder(tail, query, rank);
      if Contains(ToLower(xs[0].name), query) {
        forall y | y in FilterByName(tail, query) ensures !Outranks(rank(y), rank(xs[0])) {
          var m :| 0 <= m < |tail| && tail[m] == y;
          assert xs[m + 1] == y;
        }
        SortedCons(xs[0], FilterByName(tail, query), rank);
      }
    }
  }

  /** `filtered`: with a blank search box the sorted list as it is, otherwise the items whose
      lower-cased name contains the trimmed, lower-cased search text. */
  function Filtered(sorted: seq<SavedSearch>, searchTerm: string): (r: seq<SavedSearch>)
    ensures IsBlank(searchTerm) ==> r == sorted
    ensures !IsBlank(searchTerm) ==> forall x :: x in r <==> x in sorted && Contains(ToLower(x.name), ToLower(Trim(searchTerm)))
    ensures !IsBlank(searchTerm) ==> r == FilterByName(sorted, ToLower(Trim(searchTerm)))
  {
    TrimEmptyIffBlank(searchTerm);
    var query := ToLower(Trim(searchTerm));
    if query == "" then sorted else FilterByName(sorted, query)
  }

  /** The list the panel shows is still most-recent-first, for any search text. */
  lemma FilteredIsSorted(items: seq<SavedSearch>, searchTerm: string)
    ensures SortedByRank(Filtered(Sorted(items), searchTerm), PanelRank)
  {
    FilterKeepsOrder(Sorted(items), ToLower(Trim(searchTerm)), PanelRank);
  }

  // ---------------------------------------------------------------------------------------------
  // "Last used" label

  const Minute := 60 * 1000
  const Hour := 60 * Minute
  const Day := 24 * Hour

  /** How long ago, in the unit `formatRelative` picks. */
  datatype Age = JustNow | Minutes(n: nat) | Hours(n: nat) | Days(n: nat)

  /** The unit and count for a difference of `diff` milliseconds (a future time counts as now). */
  function AgeOf(diff: int): Age {
    if diff < Minute then JustNow
    else if diff < Hour then Minutes(diff / Minute)
    else if diff < Day then Hours(diff / Hour)
    else Days(diff / Day)
  }

  /** Each unit is used only within its range, and the count is the number of whole units
      (`Math.floor`) elapsed. */
  lemma AgeBounds(diff: int)
    ensures AgeOf(diff).JustNow? <==> diff < Minute
    ensures AgeOf(diff).Minutes? ==> 1 <= AgeOf(diff).n < 60 && AgeOf(diff).n * Minute <= diff < (AgeOf(diff).n + 1) * Minute
    ensures AgeOf(diff).Hours? ==> 1 <= AgeOf(diff).n < 24 && AgeOf(diff).n * Hour <= diff < (AgeOf(diff).n + 1) * Hour
    ensures AgeOf(diff).Days? ==> 1 <= AgeOf(diff).n && AgeOf(diff).n * Day <= diff < (AgeOf(diff).n + 1) * Day
  {
  }

  /** The label text of an age. */
  function AgeText(a: Age): string {
    match a
    case JustNow => "Just now"
    case Minutes(n) => NatToString(n) + "m ago"
    case Hours(n) => NatToString(n) + "h ago"
    case Days(n) => NatToString(n) + "d ago"
  }

  /** `formatRelative(lastUsedAt)` at time `now`: "Never" when there is no parsable time. */
  function FormatRelative(lastUsed: Time, now: int): (r: string)
    ensures lastUsed.None? <==> r == "Never"
  {
    match lastUsed
    case None => "Never"
    case Some(t) =>
      var a := AgeOf(now - t);
      assert AgeText(a) != "Never" by {
        if !a.JustNow? {
          assert AgeText(a)[|AgeText(a)| - 1] == 'o';
        }
      }
      AgeText(a)
  }

  // ---------------------------------------------------------------------------------------------
  // Renaming from the panel

  /** The request the rename form passes to `onRename`. */
  datatype RenameRequest = RenameRequest(id: string, name: string)

  /** The panel's inline rename form. */
  class RenameForm {
    var editingId: Option<string>
    var editingValue: string

    constructor()
      ensures editingId.None? && editingValue == ""
    {
      editingId := None;
      editingValue := "";
    }

    /** `handleRenameSubmit(id)`: rename to the trimmed text unless it is blank, then close the
        form. The result is the `onRename` call made, if any. */
    method Submit(id: string) returns (request: Option<RenameRequest>)
      modifies this
      ensures request.Some? <==> !IsBlank(old(editingValue))
      ensures request.Some? ==> request.value == RenameRequest(id, Trim(old(editingValue)))
      ensures editingId.None? && editingValue == ""
    {
      TrimEmptyIffBlank(editingValue);
      var value := Trim(editingValue);
      if value != "" {
        request := Some(RenameRequest(id, value));
      } else {
        request := None;
      }
      editingId := None;
      editingValue := "";
    }
  }
}
