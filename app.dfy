/** The builder session of the app (src/App.tsx): the bucket list and output mode, the query text
    on display, the saved search being edited and whether it has unsaved changes. Each handler
    applies one of the pure bucket updaters and then lets the two effects settle: the query-sync
    effect (copy the freshly built query to the display unless a load asked to skip one sync) and
    the dirty-check effect (compare the current snapshot with the last saved one). */
module App {
  import opened Wrappers
  import opened Text
  import opened Types
  import opened BooleanBuilder
  import opened Buckets
  import opened SavedSearches
  import SearchControlsBar

  /** What the dirty check compares: the buckets, the output mode and the displayed query (the
      name is not part of it). */
  datatype Snapshot = Snapshot(buckets: seq<Bucket>, outputMode: OutputMode, queryString: string)

  /** The session fields, as one value. `builtQuery` is the memoised `buildBoolean` result the
      sync effect last saw; `skipSync` is `skipQuerySyncRef`; `baseline` is the last saved
      snapshot (`lastSavedSnapshotRef`). */
  datatype SessionView = SessionView(
    buckets: seq<Bucket>,
    outputMode: OutputMode,
    builtQuery: string,
    renderedQuery: string,
    skipSync: bool,
    currentSavedId: Option<string>,
    currentName: string,
    isDirty: bool,
    baseline: Option<Snapshot>)

  function SnapshotOf(v: SessionView): Snapshot {
    Snapshot(v.buckets, v.outputMode, v.renderedQuery)
  }

  /** A bucket with terms or a non-blank name. */
  predicate BucketHasContent(b: Bucket) {
    |b.terms| > 0 || Trim(b.name) != ""
  }

  /** `builderHasContent`: some bucket has content, or the displayed query is not blank. */
  predicate HasContent(buckets: seq<Bucket>, renderedQuery: string) {
    (exists k :: 0 <= k < |buckets| && BucketHasContent(buckets[k])) || Trim(renderedQuery) != ""
  }

  /** The dirty check's verdict: with nothing saved, whether there is content; otherwise whether
      the snapshot differs from the saved one. */
  predicate DirtyFlag(baseline: Option<Snapshot>, current: Snapshot, hasContent: bool) {
    match baseline
    case None => hasContent
    case Some(saved) => current != saved
  }

  /** The session once both effects have run after a change; `depsChanged` says whether the bucket
      list was replaced or the output mode changed. The sync effect only runs when the built
      query text changes, and the dirty check runs when its inputs changed or the displayed query
      did. */
  function Settled(v: SessionView, depsChanged: bool): (r: SessionView)
    ensures r.builtQuery == BooleanString(r.buckets, r.outputMode)
    ensures r.buckets == v.buckets && r.outputMode == v.outputMode && r.baseline == v.baseline
    ensures r.currentSavedId == v.currentSavedId && r.currentName == v.currentName
  {
    var q := BooleanString(v.buckets, v.outputMode);
    var synced :=
      if q == v.builtQuery then v
      else if v.skipSync then v.(skipSync := false, builtQuery := q)
      else v.(renderedQuery := q, builtQuery := q);
    if depsChanged || synced.renderedQuery != v.renderedQuery then
      synced.(isDirty := DirtyFlag(synced.baseline, SnapshotOf(synced), HasContent(synced.buckets, synced.renderedQuery)))
    else synced
  }

  /** When the display shows the built query and no skip is pending, it shows the new query after
      any change. */
  lemma SettledStaysInSync(v: SessionView, depsChanged: bool)
    requires !v.skipSync && v.renderedQuery == v.builtQuery
    ensures Settled(v, depsChanged).renderedQuery == BooleanString(v.buckets, v.outputMode)
    ensures !Settled(v, depsChanged).skipSync
  {
  }

  /** A pending skip swallows exactly the next change of the built query: the display keeps its
      text and the skip is used up. While the built query does not change the skip stays pending. */
  lemma SettledSkipsOnce(v: SessionView, depsChanged: bool)
    requires v.skipSync
    ensures BooleanString(v.buckets, v.outputMode) != v.builtQuery ==>
      Settled(v, depsChanged).renderedQuery == v.renderedQuery && !Settled(v, depsChanged).skipSync
    ensures BooleanString(v.buckets, v.outputMode) == v.builtQuery ==> Settled(v, depsChanged).skipSync
  {
  }

  /** After the bucket list or mode changed, the session is dirty exactly when nothing is saved
      and there is content, or when the snapshot differs from the saved one. */
  lemma SettledDirtiness(v: SessionView)
    ensures var r := Settled(v, true);
      r.isDirty <==>
        (v.baseline.None? && HasContent(r.buckets, r.renderedQuery)) ||
        (v.baseline.Some? && SnapshotOf(r) != v.baseline.value)
  {
  }

  /** Rendering again without a change changes nothing. */
  lemma SettledIdempotent(v: SessionView, depsChanged: bool)
    ensures Settled(Settled(v, depsChanged), false) == Settled(v, depsChanged)
    ensures Settled(Settled(v, true), true) == Settled(v, true)
  {
  }

  /** The name plays no part in the effects. */
  lemma NameNotInSnapshot(v: SessionView, depsChanged: bool, name: string)
    ensures Settled(v.(currentName := name), depsChanged) == Settled(v, depsChanged).(currentName := name)
  {
  }

  /** Toggling a bucket twice right after a save leaves the session clean again. */
  lemma ToggleTwiceIsClean(v: SessionView, id: string)
    requires v.builtQuery == BooleanString(v.buckets, v.outputMode)
    requires !v.skipSync && v.renderedQuery == v.builtQuery
    requires v.baseline == Some(SnapshotOf(v))
    ensures var v1 := Settled(v.(buckets := Toggle(v.buckets, id)), true);
      var v2 := Settled(v1.(buckets := Toggle(v1.buckets, id)), true);
      v2.buckets == v.buckets && !v2.isDirty
  {
    ToggleInvolution(v.buckets, id);
    var v1 := Settled(v.(buckets := Toggle(v.buckets, id)), true);
    SettledStaysInSync(v.(buckets := Toggle(v.buckets, id)), true);
    SettledStaysInSync(v1.(buckets := Toggle(v1.buckets, id)), true);
  }

  /** Right after a load (skip pending, baseline equal to the snapshot, clean) the effects keep
      the loaded query on display and the session clean, whether or not the built query differs. */
  lemma SettledAfterLoad(v: SessionView, depsChanged: bool)
    requires v.skipSync && v.baseline == Some(SnapshotOf(v)) && !v.isDirty
    ensures Settled(v, depsChanged).renderedQuery == v.renderedQuery
    ensures !Settled(v, depsChanged).isDirty
  {
  }

  /** Whether `handleSave` goes ahead: there is content and the trimmed name is not empty. */
  predicate SaveAccepts(v: SessionView) {
    HasContent(v.buckets, v.renderedQuery) && Trim(v.currentName) != ""
  }

  /** Were the controls bar wired to the session's state, clicking its Save button whenever it is
      enabled would save. */
  lemma EnabledSaveIsAccepted(v: SessionView)
    ensures !SearchControlsBar.IsSaveDisabled(HasContent(v.buckets, v.renderedQuery), v.currentName, v.currentSavedId, v.isDirty)
      ==> SaveAccepts(v)
  {
  }

  /** Whether `handleMoveTerm` replaces the bucket list: both ids are known and the source index
      is in range. */
  predicate MoveApplies(bs: seq<Bucket>, sourceId: string, sourceIndex: int, targetId: string) {
    match FindIndex(bs, sourceId)
    case None => false
    case Some(si) => FindIndex(bs, targetId).Some? && 0 <= sourceIndex < |bs[si].terms|
  }

  /** A move that does not apply leaves the list as it was. */
  lemma MoveNotApplied(bs: seq<Bucket>, sourceId: string, sourceIndex: int, targetId: string, targetIndex: int)
    ensures !MoveApplies(bs, sourceId, sourceIndex, targetId) ==> MoveTerm(bs, sourceId, sourceIndex, targetId, targetIndex) == bs
  {
  }

  /** The builder session: the state `App` holds and the handlers that change it. */
  class Session {
    var buckets: seq<Bucket>
    var outputMode: OutputMode
    var builtQuery: string
    var renderedQuery: string
    var skipSync: bool
    var currentSavedId: Option<string>
    var currentName: string
    var isDirty: bool
    var baseline: Option<Snapshot>
    const store: Store

    function View(): SessionView
      reads this
    {
      SessionView(buckets, outputMode, builtQuery, renderedQuery, skipSync, currentSavedId, currentName, isDirty, baseline)
    }

    /** The session on first render, after its effects: the display shows the built query, nothing
        is saved, and it is dirty when there is content. */
    constructor(initial: BuilderState, store: Store)
      ensures this.store == store
      ensures buckets == initial.buckets && outputMode == initial.outputMode
      ensures builtQuery == BooleanString(buckets, outputMode) && renderedQuery == builtQuery && !skipSync
      ensures currentSavedId.None? && currentName == "" && baseline.None?
      ensures isDirty == HasContent(buckets, renderedQuery)
    {
      var q := BuildBoolean(initial.buckets, initial.outputMode);
      buckets := initial.buckets;
      outputMode := initial.outputMode;
      builtQuery := q;
      renderedQuery := q;
      skipSync := false;
      currentSavedId := None;
      currentName := "";
      baseline := None;
      isDirty := HasContent(initial.buckets, q);
      this.store := store;
    }

    /** Run the query-sync effect, then the dirty-check effect. */
    method Settle(depsChanged: bool)
      modifies this
      ensures View() == Settled(old(View()), depsChanged)
    {
      var q := BuildBoolean(buckets, outputMode);
      var before := renderedQuery;
      if q != builtQuery {
        if skipSync {
          skipSync := false;
        } else {
          renderedQuery := q;
        }
        builtQuery := q;
      }
      if depsChanged || renderedQuery != before {
        isDirty := DirtyFlag(baseline, Snapshot(buckets, outputMode, renderedQuery), HasContent(buckets, renderedQuery));
      }
    }

    method SetOutputMode(mode: OutputMode)
      modifies this
      ensures View() == Settled(old(View()).(outputMode := mode), mode != old(outputMode))
    {
      var changed := mode != outputMode;
      outputMode := mode;
      Settle(changed);
    }

    method HandleBucketNameChange(id: string, name: string)
      modifies this
      ensures View() == Settled(old(View()).(buckets := Rename(old(buckets), id, name)), true)
    {
      buckets := Rename(buckets, id, name);
      Settle(true);
    }

    method HandleToggleBucket(id: string)
      modifies this
      ensures View() == Settled(old(View()).(buckets := Toggle(old(buckets), id)), true)
    {
      buckets := Toggle(buckets, id);
      Settle(true);
    }

    /** A blank term is refused before the bucket list is touched. */
    method HandleAddTerm(id: string, term: string, termId: string)
      modifies this
      ensures Trim(term) == "" ==> View() == old(View())
      ensures Trim(term) != "" ==> View() == Settled(old(View()).(buckets := AddTerm(old(buckets), id, term, termId)), true)
    {
      if Trim(term) != "" {
        buckets := AddTerm(buckets, id, term, termId);
        Settle(true);
      }
    }

    method HandleRemoveTerm(bucketId: string, termIndex: int)
      modifies this
      ensures View() == Settled(old(View()).(buckets := RemoveTerm(old(buckets), bucketId, termIndex)), true)
    {
      buckets := RemoveTerm(buckets, bucketId, termIndex);
      Settle(true);
    }

    /** A move that does not apply hands back the same list, so no effect runs. */
    method HandleMoveTerm(sourceId: string, sourceIndex: int, targetId: string, targetIndex: int)
      modifies this
      ensures !MoveApplies(old(buckets), sourceId, sourceIndex, targetId) ==> View() == old(View())
      ensures MoveApplies(old(buckets), sourceId, sourceIndex, targetId) ==>
        View() == Settled(old(View()).(buckets := MoveTerm(old(buckets), sourceId, sourceIndex, targetId, targetIndex)), true)
    {
      if MoveApplies(buckets, sourceId, sourceIndex, targetId) {
        buckets := MoveTerm(buckets, sourceId, sourceIndex, targetId, targetIndex);
        Settle(true);
      }
    }

    method HandleOperatorChange(bucketId: string, operator: Operator)
      modifies this
      ensures View() == Settled(old(View()).(buckets := SetOperator(old(buckets), bucketId, operator)), true)
    {
      buckets := SetOperator(buckets, bucketId, operator);
      Settle(true);
    }

    /** When no id is known the previous list comes back unchanged and no effect runs. */
    method HandleReorderBuckets(orderedIds: seq<string>)
      modifies this
      ensures Picked(old(buckets), orderedIds) == [] ==> View() == old(View())
      ensures Picked(old(buckets), orderedIds) != [] ==>
        View() == Settled(old(View()).(buckets := Reorder(old(buckets), orderedIds)), true)
    {
      var reordered := ReorderBuckets(buckets, orderedIds);
      if Picked(buckets, orderedIds) != [] {
        buckets := reordered;
        Settle(true);
      }
    }

    method HandleDeleteBucket(id: string)
      modifies this
      ensures View() == Settled(old(View()).(buckets := DeleteBucket(old(buckets), id)), true)
    {
      buckets := DeleteBucket(buckets, id);
      Settle(true);
    }

    /** With eight buckets the previous list comes back unchanged and no effect runs. */
    method HandleAddBucket()
      modifies this
      ensures |old(buckets)| >= MaxBuckets ==> View() == old(View())
      ensures |old(buckets)| < MaxBuckets ==> View() == Settled(old(View()).(buckets := AddBucket(old(buckets))), true)
    {
      if |buckets| < MaxBuckets {
        buckets := AddBucket(buckets);
        Settle(true);
      }
    }

    /** Typing a name always marks the session dirty. */
    method HandleNameChange(value: string)
      modifies this
      ensures View() == old(View()).(currentName := value, isDirty := true)
    {
      currentName := value;
      isDirty := true;
    }

    /** `loadSavedSearch`: show the saved buckets, mode and query text, remember the saved search
        as the baseline, record its use, and skip the next query sync so the saved text stays on
        display. The session comes out clean and showing the saved query. */
    method LoadSavedSearch(saved: SavedSearch, now: int)
      modifies this, store
      ensures View() == Settled(old(View()).(
        buckets := saved.state.buckets, outputMode := saved.state.outputMode,
        renderedQuery := saved.queryString, skipSync := true,
        currentSavedId := Some(saved.id), currentName := saved.name, isDirty := false,
        baseline := Some(Snapshot(saved.state.buckets, saved.state.outputMode, saved.queryString))), true)
      ensures renderedQuery == saved.queryString && !isDirty
      ensures buckets == saved.state.buckets && outputMode == saved.state.outputMode
      ensures store.collection == old(store.collection).(items := MarkUsedItems(old(store.collection.items), saved.id, now))
      ensures store.persisted == store.collection
    {
      skipSync := true;
      buckets := saved.state.buckets;
      outputMode := saved.state.outputMode;
      renderedQuery := saved.queryString;
      currentSavedId := Some(saved.id);
      currentName := saved.name;
      isDirty := false;
      baseline := Some(Snapshot(saved.state.buckets, saved.state.outputMode, saved.queryString));
      store.MarkUsed(saved.id, now);
      SettledAfterLoad(View(), true);
      Settle(true);
    }

    /** `handleSave`: refuse without content or without a name; otherwise create a saved search
        (fresh id `newId`) or update the current one with the trimmed name, the state and the
        displayed query, record its use, and take the current snapshot as the new baseline. */
    method HandleSave(newId: string, now: int, usedAt: int) returns (ok: bool)
      modifies this, store
      ensures ok <==> SaveAccepts(old(View()))
      ensures !ok ==> View() == old(View()) && store.collection == old(store.collection)
      ensures ok ==> buckets == old(buckets) && outputMode == old(outputMode) && renderedQuery == old(renderedQuery)
      ensures ok ==> builtQuery == old(builtQuery) && skipSync == old(skipSync)
      ensures ok ==> baseline == Some(Snapshot(buckets, outputMode, renderedQuery)) && !isDirty
      ensures ok && !SearchControlsBar.HasExisting(old(currentSavedId)) ==>
        && currentSavedId == Some(newId) && currentName == Trim(old(currentName))
        && store.collection.items == MarkUsedItems(
             old(store.collection.items) +
             [NewItem(CreateInput(Trim(old(currentName)), None, BuilderState(buckets, outputMode), renderedQuery), newId, now)],
             newId, usedAt)
      ensures ok && SearchControlsBar.HasExisting(old(currentSavedId)) ==>
        && currentSavedId == old(currentSavedId) && currentName == old(currentName)
        && store.collection.items == MarkUsedItems(
             UpdateItems(old(store.collection.items), currentSavedId.value,
               Patch(Some(Trim(currentName)), None, Some(BuilderState(buckets, outputMode)), Some(renderedQuery)), now),
             currentSavedId.value, usedAt)
      ensures ok && newId != "" ==> SearchControlsBar.SaveLabel(currentSavedId, isDirty) == "Saved"
      ensures ok ==> store.persisted == store.collection
    {
      if !HasContent(buckets, renderedQuery) || Trim(currentName) == "" {
        return false;
      }
      var nameToUse := Trim(currentName);
      var state := BuilderState(buckets, outputMode);
      if !SearchControlsBar.HasExisting(currentSavedId) {
        var saved := store.Create(CreateInput(nameToUse, None, state, renderedQuery), newId, now);
        currentSavedId := Some(saved.id);
        currentName := saved.name;
        store.MarkUsed(saved.id, usedAt);
      } else {
        store.Update(currentSavedId.value, Patch(Some(nameToUse), None, Some(state), Some(renderedQuery)), now);
        store.MarkUsed(currentSavedId.value, usedAt);
      }
      baseline := Some(Snapshot(buckets, outputMode, renderedQuery));
      isDirty := false;
      return true;
    }

    /** `handleRenameSaved`: rename in the store; the name field follows when it is the current one. */
    method HandleRenameSaved(id: string, name: string, now: int)
      modifies this, store
      ensures store.collection == old(store.collection).(items := UpdateItems(old(store.collection.items), id, Patch(Some(name), None, None, None), now))
      ensures store.persisted == store.collection
      ensures View() == if old(currentSavedId) == Some(id) then old(View()).(currentName := name) else old(View())
    {
      store.Update(id, Patch(Some(name), None, None, None), now);
      if currentSavedId == Some(id) {
        currentName := name;
      }
    }

    /** `handleDeleteSaved`: delete from the store; deleting the current one forgets it and its
        baseline, and the session is then dirty exactly when it has content. */
    method HandleDeleteSaved(id: string)
      modifies this, store
      ensures store.collection == old(store.collection).(items := WithoutItem(old(store.collection.items), id))
      ensures store.persisted == store.collection
      ensures View() == if old(currentSavedId) == Some(id)
        then old(View()).(currentSavedId := None, currentName := "", baseline := None, isDirty := HasContent(old(buckets), old(renderedQuery)))
        else old(View())
    {
      store.DeleteSearch(id);
      if currentSavedId == Some(id) {
        currentSavedId := None;
        currentName := "";
        baseline := None;
        isDirty := HasContent(buckets, renderedQuery);
      }
    }
  }
}
