# Boolean Builder — a Dafny model

Boolean Builder is a small React app for recruiters. The user sorts search terms into
*buckets*. Each enabled bucket with terms becomes a parenthesised OR-group, and the groups are
chained with the operator each bucket carries to the next one (`AND`, `OR`, `AND NOT`). The
result is shown pretty (one token per line) or minified (one line). Searches can be saved under
a name, reloaded, renamed and deleted, and the app tracks whether the builder differs from the
last save.

This project models the core of the app in Dafny and proves properties of it:

- `text.dfy` (module `Text`): the JavaScript string behaviour the code relies on. It covers
  `trim` and `\s` over the ECMAScript whitespace set, `split` on a character class, `join`,
  `includes`, ASCII `toLowerCase`, and decimal rendering of counters.
- `types.dfy` (module `Types`): operators, output modes, colour keys, terms, buckets and the
  builder state.
- `boolean_builder.dfy`:
  - module `BooleanBuilder`: `formatTerm` and `buildBoolean` (src/lib/booleanBuilder.ts). The
    loop that stitches groups and operators is a method proved against the query's
    specification functions.
  - module `BooleanBuilderExamples`: worked examples, stated over symbolic words.
- `buckets.dfy` (module `Buckets`): the pure bucket-list updaters of src/App.tsx. These are
  rename, toggle, operator change, add and remove term, move term, reorder, delete and add
  bucket, the term palette, and the restoring of persisted state (`normalizeTerm`,
  `normalizeBuckets`, `loadInitialState`). Bucket ids can repeat after a delete followed by an
  add, so the updaters act on every bucket with a matching id. Two exceptions follow the code:
  - moving a term uses the first match (`findIndex`);
  - reordering uses the last bucket with each id, because a `Map` keeps the last duplicate key.
- `saved_searches.dfy` (module `SavedSearches`):
  - the saved-search record and the pure item updates;
  - the `Store` class modelling `useSavedSearches`. Its `persisted` ghost field is what was last
    written to storage, and every write sets it to the new collection.
  - `getRecents` and `exportAll`;
  - a stable insertion sort by rank, shared with the saved-search panel.
- `saved_search_panel.dfy` (module `SavedSearchPanel`): the panel's most-recent-first order, the
  name filter, the "last used" label and the inline rename form.
- `bucket_card.dfy` (module `BucketCard`): what pressing Enter in a bucket's add-term box sends
  to the add-term handler (single terms and comma/newline pastes), and the operator menu.
- `search_controls_bar.dfy` (module `SearchControlsBar`): the Save button's label, when it is
  disabled, and when its handlers fire.
- `app.dfy` (module `App`): the `Session` class holding the state of `App`. Each bucket handler
  applies a pure updater and then runs `Settle`, which plays the two effects:
  - the query-sync effect copies a *changed* built query to the display, unless a load asked to
    skip one sync;
  - the dirty-check effect compares the current `{buckets, outputMode, queryString}` snapshot
    with the last saved one.

  `Settle` is specified by the pure function `Settled`, and the lemmas about `Settled` carry
  the dirty-tracking rules. Both effects follow React's dependency rule: strings and modes are
  compared by value, while a bucket list counts as changed whenever a handler replaced it.
  Handlers that return the previous list change nothing. This holds for a move that does not
  apply, a reorder that finds no id and adding a ninth bucket.

The model keeps one corner of the sync effect exactly as written, stated in
`App.SettledSkipsOnce`. A load sets the skip flag. If the loaded buckets build the same query
text as before, the sync effect does not run, so the flag stays set. The next edit's query is
then not copied to the display.

## Model

| member | source | states |
|---|---|---|
| Text.TrimShape | src/lib/booleanBuilder.ts:11 | `trim` removes exactly the leading and trailing whitespace: a non-empty result starts and ends with a non-space, and everything cut off is whitespace |
| Text.Trim | src/lib/booleanBuilder.ts:11 | `trim`: the slice between the first and after the last non-whitespace character (its shape is stated by `TrimShape`) |
| Text.TrimEmptyIffBlank | src/lib/booleanBuilder.ts:11-12 | the trimmed text is empty exactly when every character is whitespace |
| Text.TrimIdempotent | src/lib/booleanBuilder.ts:11 | trimming twice is trimming once |
| Text.HasSpaceIff | src/lib/booleanBuilder.ts:15 | the `/\s/` test holds exactly when some character is whitespace |
| Text.HasSpace | src/lib/booleanBuilder.ts:15 | `/\s/.test`: a scan for a whitespace character (characterised by `HasSpaceIff`) |
| Text.SplitJoin | src/components/BucketCard.tsx:76-77 | splitting on a separator set undoes joining with one of its characters, for pieces free of separators |
| Text.Split | src/components/BucketCard.tsx:77 | `split(/[\n,]/)`: at least one piece, and no piece holds a separator |
| Text.Join | src/lib/booleanBuilder.ts:51 | `join(sep)`: a single part joins to itself; `SplitJoin` shows split undoes it |
| Text.ContainsChar | src/components/BucketCard.tsx:75 | `includes` of a one-character string holds exactly when the character occurs |
| Text.Contains | src/components/BucketCard.tsx:75 | `includes`: the text occurs at some position (characterised for one character by `ContainsChar`) |
| Text.ToLower | src/components/SavedSearchPanel.tsx:64-67 | lower-casing keeps the length and maps each character (ASCII letters only) |
| Text.NatToString | src/App.tsx:479-484 | the decimal text of a counter is digits without a leading zero whose decimal value is the counter; a single digit below ten |
| Text.NatToStringInjective | src/App.tsx:479-484 | different counters render as different texts |
| BooleanBuilder.FormatTermSpec | src/lib/booleanBuilder.ts:10-22 | a term formats to "" exactly when blank; otherwise to its trimmed text, wrapped in quotes exactly when it holds whitespace and is not already `"…"` |
| BooleanBuilder.FormatTerm | src/lib/booleanBuilder.ts:10-22 | `formatTerm` (its behaviour is stated by `FormatTermSpec` and `FormatTermIdempotent`) |
| BooleanBuilder.IsQuoted | src/lib/booleanBuilder.ts:14 | `/^".*"$/`: at least two characters, a quote at each end and no line terminator between |
| BooleanBuilder.FormatTermIdempotent | src/lib/booleanBuilder.ts:10-22 | formatting a single-line term twice gives the same as once |
| BooleanBuilder.FormatTermRequotesMultiLine | src/lib/booleanBuilder.ts:14 | because `.` does not match a line break, a quoted multi-line term is quoted again: formatting is not idempotent there |
| BooleanBuilder.Active | src/lib/booleanBuilder.ts:35-37 | the active buckets are exactly the enabled buckets with terms |
| BooleanBuilder.ActiveAppend | src/lib/booleanBuilder.ts:35-37 | the active filter distributes over concatenation, keeping order |
| BooleanBuilder.FormattedTerms | src/lib/booleanBuilder.ts:45-47 | the formatted terms of a bucket are never empty strings |
| BooleanBuilder.FormattedTermsKeepOrder | src/lib/booleanBuilder.ts:45-47 | with no blank term, each term formats in place and in order |
| BooleanBuilder.FormattedTermsEmptyIffBlank | src/lib/booleanBuilder.ts:45-49 | a bucket yields no formatted terms exactly when all its terms are blank |
| BooleanBuilder.Groups | src/lib/booleanBuilder.ts:44-52 | there is one group per active bucket, in order |
| BooleanBuilder.Group | src/lib/booleanBuilder.ts:44-52 | one bucket's group: "" without formatted terms, otherwise the formatted terms joined by " OR " in parentheses (examples in `GroupOfOne`, `GroupOfTwo`) |
| BooleanBuilder.Tokens | src/lib/booleanBuilder.ts:54-70 | the parts pushed by the stitching loop (their structure is stated by `TokensAlternate`) |
| BooleanBuilder.BooleanString | src/lib/booleanBuilder.ts:72-101 | the rendering of the parts in the mode (stated by `PrettyLinesAreTokens`) |
| BooleanBuilder.BuildBoolean | src/lib/booleanBuilder.ts:31-101 | the stitching loop computes the specified query string |
| BooleanBuilder.NoActiveBucketGivesEmptyString | src/lib/booleanBuilder.ts:39-41 | with every bucket disabled or without terms the query is empty |
| BooleanBuilder.InactiveBucketIsSkipped | src/lib/booleanBuilder.ts:35-37 | inserting a disabled or empty bucket anywhere leaves the query unchanged |
| BooleanBuilder.PartsAlternate | src/lib/booleanBuilder.ts:55-70 | with non-empty groups the parts alternate group, operator, group, …, and each operator is the one after the previous bucket |
| BooleanBuilder.BlankGroupIsSkipped | src/lib/booleanBuilder.ts:57-69 | a blank group pushes nothing, and the next group is preceded by the blank bucket's own operator, even when nothing was pushed before |
| BooleanBuilder.TokensAlternate | src/lib/booleanBuilder.ts:55-70 | when every active bucket has a non-blank term, the query tokens alternate groups and the preceding bucket's operator |
| BooleanBuilder.SingleActiveBucketIsItsGroup | src/lib/booleanBuilder.ts:61-63 | one active bucket gives just its group, in both modes, with no outer parentheses |
| BooleanBuilder.PrettyLinesAreTokens | src/lib/booleanBuilder.ts:72-101 | the pretty query split at line breaks gives back the tokens; the minified query is the pretty one with every line break turned into a space |
| BooleanBuilder.JoinSwapSeparator | src/lib/booleanBuilder.ts:72-101 | joining parts free of line breaks with a space equals joining them with a line break and replacing each line break by a space |
| BooleanBuilderExamples.QuotingExamples | src/lib/booleanBuilder.ts:10-22 | `" a b "` becomes `"a b"`, an already quoted phrase is kept, and a blank term vanishes |
| BooleanBuilderExamples.PlainWordUnchanged | src/lib/booleanBuilder.ts:10-22 | a word without whitespace formats to itself |
| BooleanBuilderExamples.AllActive | src/lib/booleanBuilder.ts:35-37 | a list of active buckets is its own active list |
| BooleanBuilderExamples.GroupOfOne | src/lib/booleanBuilder.ts:51 | a bucket with one plain word gives `(word)` |
| BooleanBuilderExamples.GroupOfTwo | src/lib/booleanBuilder.ts:51 | two plain words give `(a OR b)` |
| BooleanBuilderExamples.EndToEndExample | src/lib/booleanBuilder.ts:31-101 | title AND (skill1 OR skill2) AND NOT exclusion tokenises as the five expected tokens |
| BooleanBuilderExamples.MiddleInactive | src/lib/booleanBuilder.ts:35-37 | a disabled middle bucket drops out of the active list |
| BooleanBuilderExamples.DisabledBucketExample | src/lib/booleanBuilder.ts:65-68 | after a disabled bucket is skipped, the operator comes from the previous active bucket |
| BooleanBuilderExamples.BlankFirstBucketExample | src/lib/booleanBuilder.ts:57-70 | an active first bucket whose terms are all blank leaves a leading operator in the query |
| Buckets.PickTermColorCycle | src/App.tsx:24-41 | term colours repeat every ten terms, and ten consecutive terms all get different colours |
| Buckets.PickTermColor | src/App.tsx:40-41 | `pickTermColor`: the palette entry at the count modulo ten (cycle stated by `PickTermColorCycle`) |
| Buckets.Rename | src/App.tsx:212-216 | renaming changes only the name of the buckets with the id |
| Buckets.Toggle | src/App.tsx:218-224 | toggling flips only `isEnabled` of the buckets with the id |
| Buckets.SetOperator | src/App.tsx:430-436 | an operator change overwrites only `operatorAfter` of the buckets with the id |
| Buckets.ToggleInvolution | src/App.tsx:218-224 | toggling twice restores the list |
| Buckets.RenameLastWins | src/App.tsx:212-216 | two renames equal the second alone |
| Buckets.SetOperatorLastWins | src/App.tsx:430-436 | two operator changes equal the second alone |
| Buckets.QueryIgnoresNamesAndIds | src/lib/booleanBuilder.ts:31-101 | the query depends only on terms, enabled flags and operators |
| Buckets.RenameKeepsQuery | src/App.tsx:212-216 | renaming a bucket never changes the query |
| Buckets.AddTermTo | src/App.tsx:232-246 | a bucket already holding the value is unchanged; otherwise the term is appended with the palette colour for its position |
| Buckets.AddTerm | src/App.tsx:226-249 | a blank term changes nothing; otherwise only buckets with the id get the trimmed term |
| Buckets.AddTermPresent | src/App.tsx:226-249 | after adding a non-blank term every bucket with the id holds its trimmed text |
| Buckets.AddTermIdempotent | src/App.tsx:234-235 | adding the same text twice equals adding it once |
| Buckets.AddTermKeepsValuesDistinct | src/App.tsx:234-235 | adding keeps the values in each bucket distinct |
| Buckets.RemoveAt | src/App.tsx:257 | removing an in-range index drops exactly that element and shifts the rest; an out-of-range index changes nothing |
| Buckets.RemoveTerm | src/App.tsx:251-262 | only buckets with the id lose the term at the index |
| Buckets.RemoveTermOutOfRange | src/App.tsx:251-262 | an out-of-range index or an unknown id leaves the list unchanged |
| Buckets.FindIndex | src/App.tsx:367-372 | the index found is the first bucket with the id; none means no bucket has it |
| Buckets.Clamp | src/App.tsx:391-394 | the target position is clamped into `0..len` |
| Buckets.InsertAt | src/App.tsx:395 | splice-insert puts the element at the position and shifts the rest |
| Buckets.MoveTerm | src/App.tsx:360-428 | an unknown id or an out-of-range source index leaves the list as it was |
| Buckets.MoveTermKeepsTerms | src/App.tsx:360-428 | a move never loses or duplicates a term: the multiset of all terms is unchanged |
| Buckets.MoveTermLands | src/App.tsx:386-426 | a successful move puts the term at the clamped target position and touches no other bucket |
| Buckets.LastWithId | src/App.tsx:440 | the `Map` lookup finds a bucket with the id that no later bucket shares (the last one), or none exactly when no bucket has it |
| Buckets.PickedFollowsIds | src/App.tsx:441-446 | the collected buckets follow the order of the known ids, one per id |
| Buckets.Reorder | src/App.tsx:438-453 | the reordered list holds only existing buckets and is never emptied |
| Buckets.ReorderBuckets | src/App.tsx:438-453 | the collecting loop computes the specified reorder |
| Buckets.ReorderByOwnIds | src/App.tsx:438-453 | with distinct ids, reordering by the current ids changes nothing |
| Buckets.WithoutId | src/App.tsx:457 | the filter keeps exactly the buckets with other ids |
| Buckets.WithoutIdAppend | src/App.tsx:457 | the filter distributes over concatenation, so the remaining buckets keep their order and multiplicity |
| Buckets.WithoutIdSingle | src/App.tsx:457 | one bucket stays exactly when its id differs |
| Buckets.DeleteBucket | src/App.tsx:455-474 | deleting removes every bucket with the id and never leaves the list empty |
| Buckets.DeleteLastBucket | src/App.tsx:459-470 | deleting the id every bucket has gives exactly the default bucket |
| Buckets.DeleteUnknownBucket | src/App.tsx:455-474 | deleting an unknown id leaves a non-empty list unchanged |
| Buckets.AddBucket | src/App.tsx:476-491 | below eight buckets an enabled, empty, AND bucket with id `bucket-(n+1)` and name `Bucket (n+1)` is appended after the n existing ones; at eight nothing changes |
| Buckets.NewBucket | src/App.tsx:479-488 | the bucket added as the n-th: `bucket-n`, "Bucket n", enabled, no terms, AND |
| Buckets.NewBucketIdsDiffer | src/App.tsx:479-484 | buckets added at different counts get different ids and different names |
| Buckets.AddBucketCap | src/App.tsx:478 | adding repeatedly never goes past eight buckets |
| Buckets.DuplicateIdAfterDelete | src/App.tsx:476-491 | deleting `bucket-1` from two buckets and adding one yields two buckets with id `bucket-2` |
| Buckets.NormalizeTerm | src/App.tsx:47-71 | a well-formed stored term is kept; a legacy string gets a fresh id and the colour of its position; anything else becomes an empty term |
| Buckets.KeepNonEmpty | src/App.tsx:78 | the filter keeps exactly the terms with a non-empty value |
| Buckets.KeepNonEmptyAppend | src/App.tsx:78 | the filter distributes over concatenation, so survivors keep their order and multiplicity |
| Buckets.NormalizeTerms | src/App.tsx:76-78 | restored terms never have an empty value |
| Buckets.NormalizedEach | src/App.tsx:76-77 | `terms.map(normalizeTerm)`: entry i becomes the normalised term for position i |
| Buckets.NormalizeTermsStep | src/App.tsx:76-78 | restoring one more entry appends its normalised term exactly when its value is not empty |
| Buckets.NormalizeTermsPrefix | src/App.tsx:76-78 | the entries before position i restore to a prefix of the whole restored list |
| Buckets.NormalizeTermLands | src/App.tsx:76-78 | an entry whose term has a value lands right after what the entries before it restore to |
| Buckets.NormalizeKeepsStoredTerms | src/App.tsx:47-79 | in any mix of entries, a well-formed term with a value comes back unchanged, right after what the entries before it restore to |
| Buckets.NormalizeKeepsOrder | src/App.tsx:76-78 | surviving entries keep their stored order |
| Buckets.NormalizeAllStored | src/App.tsx:47-79 | a list of well-formed terms with values comes back exactly as stored |
| Buckets.NormalizeLegacyTerm | src/App.tsx:64-78 | a non-empty legacy term is restored in its place, with a fresh id and the colour of its index before filtering |
| Buckets.NormalizeDropsMalformed | src/App.tsx:64-78 | every restored term comes from a well-formed or legacy entry |
| Buckets.NormalizeBuckets | src/App.tsx:73-79 | each bucket keeps its id, name, flag and operator, and its terms are exactly the normalised stored terms |
| Buckets.RestoreState | src/App.tsx:91-121 | the restored list is never empty; the mode is minified exactly when stored as "minified"; missing or empty storage gives the default bucket |
| SavedSearches.NewItem | src/hooks/useSavedSearches.ts:30-39 | a new item carries the given fields and all three timestamps equal `now` |
| SavedSearches.Patched | src/hooks/useSavedSearches.ts:61-70 | supplied fields overwrite; `updatedAt` moves only when state or query is supplied |
| SavedSearches.UpdateItems | src/hooks/useSavedSearches.ts:53-75 | only items with the id are patched, positions kept |
| SavedSearches.MarkUsedItems | src/hooks/useSavedSearches.ts:88-98 | only `lastUsedAt` of items with the id changes |
| SavedSearches.WithoutItem | src/hooks/useSavedSearches.ts:77-86 | delete keeps exactly the items with other ids |
| SavedSearches.RenameKeepsUpdatedAt | src/hooks/useSavedSearches.ts:63-68 | a name-only update keeps every `updatedAt` |
| SavedSearches.UpdateUnknownId | src/hooks/useSavedSearches.ts:53-75 | updating an unknown id changes nothing |
| SavedSearches.WithoutItemAppend | src/hooks/useSavedSearches.ts:81 | delete keeps the relative order of the remaining items |
| SavedSearches.WithoutUnknownItem | src/hooks/useSavedSearches.ts:77-86 | deleting an unknown id changes nothing |
| SavedSearches.CreateThenDelete | src/hooks/useSavedSearches.ts:23-86 | deleting a freshly created item restores the list |
| SavedSearches.InsertByRankPermutes | src/hooks/useSavedSearches.ts:123-128 | inserting into the sorted list adds exactly the one item |
| SavedSearches.InsertByRankSorted | src/hooks/useSavedSearches.ts:123-128 | insertion keeps the list sorted by rank |
| SavedSearches.InsertByRank | src/hooks/useSavedSearches.ts:123-128 | one insertion step of the sort: after every item the new one does not outrank (stated by `InsertByRankPermutes`, `InsertByRankSorted`) |
| SavedSearches.SortByRankSorted | src/hooks/useSavedSearches.ts:123-128 | sorting yields a sorted permutation |
| SavedSearches.SortByRank | src/hooks/useSavedSearches.ts:123-128 | `sort` by rank as an insertion sort (stated by `SortByRankSorted`) |
| SavedSearches.RecentRank | src/hooks/useSavedSearches.ts:125-127 | `Date.parse(lastUsedAt) \|\| 0`: a missing or unparsable time ranks as the epoch |
| SavedSearches.SortedPrefixOutranksRest | src/hooks/useSavedSearches.ts:123-129 | a prefix of a sorted list is a sub-multiset of it, and nothing left out outranks anything kept |
| SavedSearches.SliceTo | src/hooks/useSavedSearches.ts:129 | `slice(0, limit)` is a prefix of the length JavaScript gives, including a negative limit |
| SavedSearches.Store.GetRecents | src/hooks/useSavedSearches.ts:122-130 | `min(limit, n)` items for a non-negative limit, a sub-multiset of the store, most recently used first, and no omitted item used more recently than a kept one; the whole store when the limit covers it |
| SavedSearches.Store.ExportAll | src/hooks/useSavedSearches.ts:109-120 | the export carries the export type, version 1 and exactly the current items |
| SavedSearches.Store.constructor | src/hooks/useSavedSearches.ts:19-21 | the store starts with the loaded collection, which is also what is persisted |
| SavedSearches.Store.Create | src/hooks/useSavedSearches.ts:23-51 | exactly one new item is appended, and the collection is persisted |
| SavedSearches.Store.Update | src/hooks/useSavedSearches.ts:53-75 | items are patched as specified, and the collection is persisted |
| SavedSearches.Store.DeleteSearch | src/hooks/useSavedSearches.ts:77-86 | items with the id are removed, and the collection is persisted |
| SavedSearches.Store.MarkUsed | src/hooks/useSavedSearches.ts:88-98 | items with the id are marked used, and the collection is persisted |
| SavedSearches.Store.ReplaceAll | src/hooks/useSavedSearches.ts:100-107 | the collection becomes exactly version 1 with the given items, and is persisted |
| SavedSearchPanel.Sorted | src/components/SavedSearchPanel.tsx:52-61 | the panel list is a permutation of the saved searches, sorted by rank |
| SavedSearchPanel.PanelRank | src/components/SavedSearchPanel.tsx:54-59 | the panel sorts by the parsed time, and an unparsable time ranks last |
| SavedSearchPanel.SortedOrder | src/components/SavedSearchPanel.tsx:53-60 | unparsable times come after all parsable ones, and parsable times never increase |
| SavedSearchPanel.FilterByName | src/components/SavedSearchPanel.tsx:66-68 | the filter keeps exactly the items whose lower-cased name contains the query |
| SavedSearchPanel.FilterByNameAppend | src/components/SavedSearchPanel.tsx:66-68 | the filter distributes over concatenation, so kept items keep their order and multiplicity |
| SavedSearchPanel.FilterByNameSingle | src/components/SavedSearchPanel.tsx:66-68 | one item is kept exactly when its lower-cased name contains the query |
| SavedSearchPanel.FilterKeepsOrder | src/components/SavedSearchPanel.tsx:66-68 | filtering keeps the sorted order |
| SavedSearchPanel.Filtered | src/components/SavedSearchPanel.tsx:63-69 | a blank search returns the sorted list; otherwise the name filter of the sorted list by the trimmed, lower-cased text (exactly the matching items, in order) |
| SavedSearchPanel.FilteredIsSorted | src/components/SavedSearchPanel.tsx:52-69 | the shown list is most-recent-first for any search text |
| SavedSearchPanel.AgeBounds | src/components/SavedSearchPanel.tsx:29-36 | each unit is used only within its range, and the count is the floored number of units |
| SavedSearchPanel.AgeOf | src/components/SavedSearchPanel.tsx:29-36 | the age unit by threshold (bounds stated by `AgeBounds`) |
| SavedSearchPanel.AgeText | src/components/SavedSearchPanel.tsx:33-36 | "Just now", or the floored count followed by "m ago", "h ago" or "d ago" |
| SavedSearchPanel.FormatRelative | src/components/SavedSearchPanel.tsx:25-37 | the label is "Never" exactly when there is no parsable time |
| SavedSearchPanel.RenameForm.Submit | src/components/SavedSearchPanel.tsx:73-80 | rename fires with the trimmed text exactly when it is not blank, and the form is always cleared |
| BucketCard.HasSeparatorIff | src/components/BucketCard.tsx:75 | the paste test holds exactly when a line break or comma occurs |
| BucketCard.TrimmedPieces | src/components/BucketCard.tsx:78-79 | the kept pieces are non-empty, trimmed and come from the input pieces |
| BucketCard.TrimmedPiecesAppend | src/components/BucketCard.tsx:78-79 | trimming and filtering distribute over concatenation, keeping order |
| BucketCard.TrimmedPiecesSingle | src/components/BucketCard.tsx:78-79 | one piece is kept, trimmed, exactly when it is not blank |
| BucketCard.TrimmedPieceLands | src/components/BucketCard.tsx:76-79 | every non-blank piece is kept, trimmed, right after what the pieces before it give |
| BucketCard.PastePieces | src/components/BucketCard.tsx:70-84 | an empty box sends nothing; text without separators is sent once, untrimmed; a paste sends the trimmed non-blank pieces of the split, in order |
| BucketCard.PastePiecesHaveNoSeparator | src/components/BucketCard.tsx:76-79 | no piece of a paste holds a comma or line break |
| BucketCard.PasteRoundTrip | src/components/BucketCard.tsx:75-80 | a comma-joined list of clean words is sent back as exactly those words |
| BucketCard.AddEach | src/components/BucketCard.tsx:80 | dispatching pieces keeps the number and ids of buckets |
| BucketCard.AddEachAddsAll | src/components/BucketCard.tsx:80 | after a paste, every bucket with the id holds every non-blank piece |
| BucketCard.AddEachKeepsValuesDistinct | src/components/BucketCard.tsx:80 | pasting repeated values still leaves each value at most once per bucket |
| BucketCard.TermInput.PressEnter | src/components/BucketCard.tsx:70-87 | Enter dispatches the pieces in order and clears the box |
| BucketCard.ParseOperator | src/components/BucketCard.tsx:94-104 | an option value reads back as the operator whose text it is |
| BucketCard.OperatorOptionsComplete | src/components/BucketCard.tsx:101-103 | the menu offers each of the three operators exactly once |
| SearchControlsBar.SaveLabel | src/components/SearchControlsBar.tsx:23-28 | "Save" without a saved id; with one, "Save changes" when dirty and "Saved" when clean |
| SearchControlsBar.HasExisting | src/components/SearchControlsBar.tsx:23 | `Boolean(currentSavedId)`: an id is present and not empty |
| SearchControlsBar.IsSaveDisabled | src/components/SearchControlsBar.tsx:29-30 | no content, a blank name, or a saved search without changes |
| SearchControlsBar.SaveClickFires | src/components/SearchControlsBar.tsx:29-35 | Save fires exactly when there is content, a non-blank name, and either no saved id or unsaved changes |
| SearchControlsBar.SaveAsNewFires | src/components/SearchControlsBar.tsx:37-40 | save-as-new fires exactly when there is content and a saved id |
| SearchControlsBar.SaveAsNewDisabled | src/components/SearchControlsBar.tsx:66 | the "Save as new" button is disabled without content |
| SearchControlsBar.SaveAsNewWhenEnabled | src/components/SearchControlsBar.tsx:37-40 | clicking the shown, enabled "Save as new" button fires; otherwise it does not |
| SearchControlsBar.SaveButtonConsistent | src/components/SearchControlsBar.tsx:22-35 | a "Saved" button is disabled; an enabled one implies content and a name; Save fires exactly when enabled |
| App.Settled | src/App.tsx:143-186 | after the effects the built query matches the buckets and mode, and buckets, mode, saved id, name and baseline are untouched |
| App.BucketHasContent | src/App.tsx:151-154 | a bucket has terms or a non-blank name |
| App.HasContent | src/App.tsx:150-157 | `builderHasContent`: some bucket has content, or the displayed query is not blank |
| App.DirtyFlag | src/App.tsx:174-186 | with nothing saved, dirty means content; otherwise the snapshot differs from the saved one |
| App.SettledStaysInSync | src/App.tsx:166-172 | a display showing the built query keeps showing it after any change |
| App.SettledSkipsOnce | src/App.tsx:166-172 | a pending skip swallows exactly the next change of the built query and stays pending while the text is unchanged |
| App.SettledDirtiness | src/App.tsx:174-186 | after a change, dirty means "content and nothing saved" or "snapshot differs from the saved one" |
| App.SettledIdempotent | src/App.tsx:143-186 | rendering again without a change changes nothing |
| App.NameNotInSnapshot | src/App.tsx:174-186 | the name plays no part in the dirty check |
| App.ToggleTwiceIsClean | src/App.tsx:174-186 | undoing a toggle right after a save leaves the session clean |
| App.SettledAfterLoad | src/App.tsx:264-283 | right after a load the saved query stays on display and the session stays clean |
| App.EnabledSaveIsAccepted | src/App.tsx:288-290 | were the controls bar wired to the session's state, an enabled Save button would always pass the save handler's guards |
| App.MoveNotApplied | src/App.tsx:374-384 | a move that does not apply hands back the same list |
| App.Session.constructor | src/App.tsx:123-186 | the first render shows the built query, nothing is saved, and the session is dirty exactly when it has content |
| App.Session.Settle | src/App.tsx:166-186 | the effects leave the session as `Settled` specifies |
| App.Session.SetOutputMode | src/App.tsx:208-210 | the mode changes, and the effects run only when it differs |
| App.Session.HandleBucketNameChange | src/App.tsx:212-216 | the buckets are renamed and the effects run |
| App.Session.HandleToggleBucket | src/App.tsx:218-224 | the buckets are toggled and the effects run |
| App.Session.HandleAddTerm | src/App.tsx:226-249 | a blank term changes nothing; otherwise the term is added and the effects run |
| App.Session.HandleRemoveTerm | src/App.tsx:251-262 | the term is removed and the effects run |
| App.Session.HandleMoveTerm | src/App.tsx:360-428 | a move that does not apply changes nothing; otherwise the term moves and the effects run |
| App.Session.HandleOperatorChange | src/App.tsx:430-436 | the operator is set and the effects run |
| App.Session.HandleReorderBuckets | src/App.tsx:438-453 | with no known id nothing changes; otherwise the buckets are reordered and the effects run |
| App.Session.HandleDeleteBucket | src/App.tsx:455-474 | the buckets are deleted and the effects run |
| App.Session.HandleAddBucket | src/App.tsx:476-491 | with eight buckets nothing changes; otherwise a bucket is added and the effects run |
| App.Session.HandleNameChange | src/App.tsx:284-287 | typing a name sets it and marks the session dirty |
| App.Session.LoadSavedSearch | src/App.tsx:264-283 | the saved buckets, mode and query are shown, the use is recorded, and the session is clean |
| App.Session.HandleSave | src/App.tsx:288-330 | refuses without content or name and then changes nothing; otherwise creates or updates with the trimmed name, state and shown query, records the use, sets the baseline to the current snapshot, and is clean |
| App.Session.HandleRenameSaved | src/App.tsx:338-346 | the store item is renamed, and the shown name follows for the current search |
| App.Session.HandleDeleteSaved | src/App.tsx:347-358 | the store item is deleted; deleting the current search forgets it, and the session is then dirty exactly when it has content |

## Left out

- Local storage and JSON. Loading parses nothing: stored state is given as a `PersistedState`
  value, and the loaded saved-search collection is a constructor argument. The builder's
  persist effect (src/App.tsx:161-164) is not modelled, and the store's writes are recorded
  only in its ghost `persisted` field. The dirty check's `JSON.stringify` comparison is
  structural equality of snapshots.
- React scheduling beyond `Settle`: re-render timing, `useCallback` and `useMemo` identity,
  and the panel-open flag. A bucket list counts as changed whenever a handler replaced it. The
  model does not track object identity. In the app, loading the same saved search twice hands
  back the same buckets array, which the model treats as replaced.
- The clipboard copy, confetti, the copy toast and its timer (src/App.tsx:188-199, 493-513),
  and `window.confirm` before a saved search is deleted.
- Ids and clocks are parameters: term ids, saved-search ids, `now` and the time of use.
  Timestamps are milliseconds (`Option<int>`, where `None` means missing or not parsable).
  ISO formatting and `formatDate` are not modelled.
- Buckets.AddTerm: takes one term id for every bucket with the id, whereas the app mints a
  fresh id per matching bucket.
- Buckets.MoveTerm: the copied arrays that `splice` edits in place are modelled as sequence
  values.
- Text.ToLower: lower-cases ASCII letters only, not full Unicode case mapping.
- Strings are sequences of characters. UTF-16 code units and surrogate pairs are not modelled.
- src/lib/types.ts:8 declares `terms: string[]`, but src/App.tsx stores `{id, value, colorKey}`
  objects. The model follows App.tsx and formats `term.value`.
- Stored bucket fields other than `terms` are assumed well-typed. A stored bucket without
  `operatorAfter`, which `buildBoolean` would stitch with the `?? "AND"` default
  (src/lib/booleanBuilder.ts:67), or with an operator string outside the three, cannot be
  expressed, so that default is not modelled.
- A stored term whose colour is a string outside the palette is kept as is by the app. The
  model's `ColorKey` cannot hold such a colour.
- `isExample` and the example searches in src/data/exampleSearches.ts are not modelled as
  input. Patches leave `shortDescription` untouched unless supplied, and a field explicitly set
  to `undefined` is not modelled.
- The "Untitled search" fallback of `handleSave` is unreachable after its blank-name guard,
  and is not modelled.
- The `prettyLines` loop in `buildBoolean` computes a value that is never used, and is not
  modelled.
- The save-as-new handler of the controls bar has no counterpart in `App`, which does not
  render the bar. The bar is modelled from its props alone.
- SavedSearches.SortByRank: the stability of the sort (equal ranks keep their order) holds by
  construction but is not stated as a lemma.
