/** The bucket-list updaters of the builder (src/App.tsx). Each handler of the app hands one of
    these pure functions to `updateBuckets`. Bucket ids need not be unique: the updaters
    written with `map`/`filter` act on every bucket with the given id, moving a term acts on the
    first one (`findIndex`), and reordering picks the last one (a `Map` built from the list). */
module Buckets {
  import opened Wrappers
  import opened Text
  import opened Types
  import opened BooleanBuilder

  // ---------------------------------------------------------------------------------------------
  // Colours and the default bucket list

  /** `TERM_COLORS`: the palette that new terms cycle through. */
  const TermColors: seq<ColorKey> := [Lavender, Blue, Mint, Cyan, Teal, Yellow, Orange, Red, Pink, Violet]

  /** `pickTermColor`: the colour of a term added after `count` others. */
  function PickTermColor(count: nat): ColorKey {
    TermColors[count % |TermColors|]
  }

  /** The palette repeats every ten terms, and ten consecutive terms all get different colours. */
  lemma PickTermColorCycle(n: nat)
    ensures PickTermColor(n + 10) == PickTermColor(n)
    ensures forall i: nat, j: nat :: n <= i < j < n + 10 ==> PickTermColor(i) != PickTermColor(j)
  {
    assert (n + 10) % 10 == n % 10;
    forall i: nat, j: nat | n <= i < j < n + 10 ensures PickTermColor(i) != PickTermColor(j) {
      DistinctRemainders(i, j);
      PaletteIndex(i % 10);
      PaletteIndex(j % 10);
    }
  }

  /** The position of a colour in the palette. */
  function ColorIndex(c: ColorKey): nat {
    match c
    case Lavender => 0 case Blue => 1 case Mint => 2 case Cyan => 3 case Teal => 4
    case Yellow => 5 case Orange => 6 case Red => 7 case Pink => 8 case Violet => 9
  }

  lemma PaletteIndex(k: nat)
    requires k < 10
    ensures ColorIndex(TermColors[k]) == k
  {
  }

  lemma DistinctRemainders(i: nat, j: nat)
    requires i < j < i + 10
    ensures i % 10 != j % 10
  {
    var qi, qj := i / 10, j / 10;
    assert i == 10 * qi + i % 10 && j == 10 * qj + j % 10;
    assert j - i == 10 * (qj - qi) + (j % 10 - i % 10);
  }

  /** The bucket the app starts with, and falls back to: "Bucket 1", enabled, no terms. */
  const DefaultBucket := Bucket("bucket-1", "Bucket 1", [], true, And)

  /** `DEFAULT_BUCKETS`. */
  const DefaultBuckets := [DefaultBucket]

  // ---------------------------------------------------------------------------------------------
  // Rename, toggle, change operator

  /** `handleBucketNameChange`: every bucket with the id gets the new name. */
  function Rename(bs: seq<Bucket>, id: string, name: string): (r: seq<Bucket>)
    ensures |r| == |bs|
    ensures forall k :: 0 <= k < |bs| ==>
      && r[k].name == (if bs[k].id == id then name else bs[k].name)
      && r[k] == bs[k].(name := r[k].name)
  {
    seq(|bs|, k requires 0 <= k < |bs| => if bs[k].id == id then bs[k].(name := name) else bs[k])
  }

  /** `handleToggleBucket`: every bucket with the id flips `isEnabled`. */
  function Toggle(bs: seq<Bucket>, id: string): (r: seq<Bucket>)
    ensures |r| == |bs|
    ensures forall k :: 0 <= k < |bs| ==>
      && r[k].isEnabled == (if bs[k].id == id then !bs[k].isEnabled else bs[k].isEnabled)
      && r[k] == bs[k].(isEnabled := r[k].isEnabled)
  {
    seq(|bs|, k requires 0 <= k < |bs| => if bs[k].id == id then bs[k].(isEnabled := !bs[k].isEnabled) else bs[k])
  }

  /** `handleOperatorChange`: every bucket with the id gets the new `operatorAfter`. */
  function SetOperator(bs: seq<Bucket>, id: string, op: Operator): (r: seq<Bucket>)
    ensures |r| == |bs|
    ensures forall k :: 0 <= k < |bs| ==>
      && r[k].operatorAfter == (if bs[k].id == id then op else bs[k].operatorAfter)
      && r[k] == bs[k].(operatorAfter := r[k].operatorAfter)
  {
    seq(|bs|, k requires 0 <= k < |bs| => if bs[k].id == id then bs[k].(operatorAfter := op) else bs[k])
  }

  /** Toggling twice gives back the original list. */
  lemma ToggleInvolution(bs: seq<Bucket>, id: string)
    ensures Toggle(Toggle(bs, id), id) == bs
  {
    var r := Toggle(Toggle(bs, id), id);
    assert forall k :: 0 <= k < |bs| ==> r[k] == bs[k];
  }

  /** Renaming twice is the same as renaming once, to the second name. */
  lemma RenameLastWins(bs: seq<Bucket>, id: string, first: string, second: string)
    ensures Rename(Rename(bs, id, first), id, second) == Rename(bs, id, second)
  {
    var r, s := Rename(Rename(bs, id, first), id, second), Rename(bs, id, second);
    assert forall k :: 0 <= k < |bs| ==> r[k] == s[k];
  }

  /** Changing the operator twice is the same as changing it once, to the second operator. */
  lemma SetOperatorLastWins(bs: seq<Bucket>, id: string, first: Operator, second: Operator)
    ensures SetOperator(SetOperator(bs, id, first), id, second) == SetOperator(bs, id, second)
  {
    var r, s := SetOperator(SetOperator(bs, id, first), id, second), SetOperator(bs, id, second);
    assert forall k :: 0 <= k < |bs| ==> r[k] == s[k];
  }

  /** Two buckets that agree on everything the query reads: terms, enabled flag, operator. */
  predicate SameForQuery(a: Bucket, b: Bucket) {
    a.terms == b.terms && a.isEnabled == b.isEnabled && a.operatorAfter == b.operatorAfter
  }

  /** Two lists that agree bucket by bucket on what the query reads have matching active lists. */
  lemma {:induction false} ActiveSameForQuery(xs: seq<Bucket>, ys: seq<Bucket>)
    requires |xs| == |ys|
    requires forall k :: 0 <= k < |xs| ==> SameForQuery(xs[k], ys[k])
    ensures |Active(xs)| == |Active(ys)|
    ensures forall k :: 0 <= k < |Active(xs)| ==> SameForQuery(Active(xs)[k], Active(ys)[k])
  {
    if xs != [] {
      ActiveSameForQuery(xs[1..], ys[1..]);
      var hx := if IsActive(xs[0]) then [xs[0]] else [];
      var hy := if IsActive(ys[0]) then [ys[0]] else [];
      assert Active(xs) == hx + Active(xs[1..]);
      assert Active(ys) == hy + Active(ys[1..]);
      assert |hx| == |hy|;
    }
  }

  lemma {:induction false} PartsUpToSameOperators(a1: seq<Bucket>, a2: seq<Bucket>, groups: seq<string>, n: nat)
    requires |a1| == |a2| == |groups| && n <= |a1|
    requires forall k :: 0 <= k < |a1| ==> a1[k].operatorAfter == a2[k].operatorAfter
    ensures PartsUpTo(a1, groups, n) == PartsUpTo(a2, groups, n)
  {
    if n > 0 {
      PartsUpToSameOperators(a1, a2, groups, n - 1);
    }
  }

  /** The query depends only on terms, enabled flags and operators, never on names or ids. */
  lemma QueryIgnoresNamesAndIds(xs: seq<Bucket>, ys: seq<Bucket>, mode: OutputMode)
    requires |xs| == |ys|
    requires forall k :: 0 <= k < |xs| ==> SameForQuery(xs[k], ys[k])
    ensures BooleanString(xs, mode) == BooleanString(ys, mode)
  {
    ActiveSameForQuery(xs, ys);
    var ax, ay := Active(xs), Active(ys);
    assert Groups(ax) == Groups(ay) by {
      forall k | 0 <= k < |ax| ensures Group(ax[k]) == Group(ay[k]) {
        assert ax[k].terms == ay[k].terms;
      }
    }
    PartsUpToSameOperators(ax, ay, Groups(ax), |ax|);
  }

  /** Renaming a bucket never changes the query. */
  lemma RenameKeepsQuery(bs: seq<Bucket>, id: string, name: string, mode: OutputMode)
    ensures BooleanString(Rename(bs, id, name), mode) == BooleanString(bs, mode)
  {
    QueryIgnoresNamesAndIds(Rename(bs, id, name), bs, mode);
  }

  // ---------------------------------------------------------------------------------------------
  // Adding and removing terms

  /** Some term of the list has exactly this value (`terms.some(t => t.value === value)`). */
  predicate HasValue(terms: seq<Term>, value: string) {
    exists i :: 0 <= i < |terms| && terms[i].value == value
  }

  /** No two terms of the list have the same value. */
  predicate DistinctValues(terms: seq<Term>) {
    forall i, j :: 0 <= i < j < |terms| ==> terms[i].value != terms[j].value
  }

  /** One bucket after adding `value`: unchanged when a term already has that value, otherwise
      with a new term appended, coloured by the number of terms before it. */
  function AddTermTo(b: Bucket, value: string, termId: string): (r: Bucket)
    ensures HasValue(r.terms, value)
    ensures r == b.(terms := r.terms)
    ensures HasValue(b.terms, value) ==> r == b
    ensures !HasValue(b.terms, value) ==> r.terms == b.terms + [Term(termId, value, TermColors[|b.terms| % 10])]
  {
    if HasValue(b.terms, value) then b
    else
      var t := Term(termId, value, PickTermColor(|b.terms|));
      assert (b.terms + [t])[|b.terms|] == t;
      b.(terms := b.terms + [t])
  }

  /** `handleAddTerm(id, raw)`: the trimmed value is added to every bucket with the id; a blank
      value changes nothing. `termId` stands for the fresh id the app generates. */
  function AddTerm(bs: seq<Bucket>, id: string, raw: string, termId: string): (r: seq<Bucket>)
    ensures |r| == |bs|
    ensures IsBlank(raw) ==> r == bs
    ensures forall k :: 0 <= k < |bs| ==>
      r[k] == (if bs[k].id == id && !IsBlank(raw) then AddTermTo(bs[k], Trim(raw), termId) else bs[k])
  {
    TrimEmptyIffBlank(raw);
    var value := Trim(raw);
    if value == "" then bs
    else seq(|bs|, k requires 0 <= k < |bs| => if bs[k].id == id then AddTermTo(bs[k], value, termId) else bs[k])
  }

  /** After a non-blank add, every bucket with the id holds the trimmed value. */
  lemma AddTermPresent(bs: seq<Bucket>, id: string, raw: string, termId: string)
    requires !IsBlank(raw)
    ensures forall k :: 0 <= k < |bs| && bs[k].id == id ==> HasValue(AddTerm(bs, id, raw, termId)[k].terms, Trim(raw))
  {
  }

  /** Adding the same value again is a no-op, whatever id the second term would get. */
  lemma AddTermIdempotent(bs: seq<Bucket>, id: string, raw: string, id1: string, id2: string)
    ensures AddTerm(AddTerm(bs, id, raw, id1), id, raw, id2) == AddTerm(bs, id, raw, id1)
  {
    var once := AddTerm(bs, id, raw, id1);
    var twice := AddTerm(once, id, raw, id2);
    if !IsBlank(raw) {
      forall k | 0 <= k < |bs| ensures twice[k] == once[k] {
        if bs[k].id == id {
          assert HasValue(once[k].terms, Trim(raw));
        }
      }
    }
  }

  /** Adding never creates two terms with the same value in a bucket. */
  lemma AddTermKeepsValuesDistinct(bs: seq<Bucket>, id: string, raw: string, termId: string)
    requires forall k :: 0 <= k < |bs| ==> DistinctValues(bs[k].terms)
    ensures forall k :: 0 <= k < |bs| ==> DistinctValues(AddTerm(bs, id, raw, termId)[k].terms)
  {
    var r := AddTerm(bs, id, raw, termId);
    forall k | 0 <= k < |bs| ensures DistinctValues(r[k].terms) {
      var ts := bs[k].terms;
      if r[k].terms != ts {
        var v := Trim(raw);
        assert !HasValue(ts, v);
        assert r[k].terms == ts + [Term(termId, v, TermColors[|ts| % 10])];
        forall i, j | 0 <= i < j < |r[k].terms| ensures r[k].terms[i].value != r[k].terms[j].value {
          if j == |ts| {
            assert r[k].terms[i] == ts[i];
          }
        }
      }
    }
  }

  /** `xs.filter((_, i) => i !== index)`: drops the element at `index`, if there is one. */
  function RemoveAt<T>(xs: seq<T>, index: int): (r: seq<T>)
    ensures 0 <= index < |xs| ==> |r| == |xs| - 1 && multiset(r) + multiset{xs[index]} == multiset(xs)
    ensures 0 <= index < |xs| ==> forall i :: 0 <= i < |r| ==> r[i] == if i < index then xs[i] else xs[i + 1]
    ensures !(0 <= index < |xs|) ==> r == xs
  {
    if 0 <= index < |xs| then
      assert xs == xs[..index] + [xs[index]] + xs[index + 1..];
      xs[..index] + xs[index + 1..]
    else xs
  }

  /** `handleRemoveTerm(id, index)`: every bucket with the id loses its term at `index`. */
  function RemoveTerm(bs: seq<Bucket>, id: string, index: int): (r: seq<Bucket>)
    ensures |r| == |bs|
    ensures forall k :: 0 <= k < |bs| ==>
      r[k] == (if bs[k].id == id then bs[k].(terms := RemoveAt(bs[k].terms, index)) else bs[k])
  {
    seq(|bs|, k requires 0 <= k < |bs| => if bs[k].id == id then bs[k].(terms := RemoveAt(bs[k].terms, index)) else bs[k])
  }

  /** An index outside the term list, or an id no bucket has, changes nothing. */
  lemma RemoveTermOutOfRange(bs: seq<Bucket>, id: string, index: int)
    requires forall k :: 0 <= k < |bs| && bs[k].id == id ==> !(0 <= index < |bs[k].terms|)
    ensures RemoveTerm(bs, id, index) == bs
  {
    var r := RemoveTerm(bs, id, index);
    assert forall k :: 0 <= k < |bs| ==> r[k] == bs[k];
  }

  // ---------------------------------------------------------------------------------------------
  // Moving a term

  /** `Array.prototype.findIndex` on the id: the first bucket with the id, if any. */
  function FindIndex(bs: seq<Bucket>, id: string): (r: Option<nat>)
    ensures r.Some? ==> r.value < |bs| && bs[r.value].id == id && forall j :: 0 <= j < r.value ==> bs[j].id != id
    ensures r.None? ==> forall j :: 0 <= j < |bs| ==> bs[j].id != id
  {
    FindIndexFrom(bs, id, 0)
  }

  function FindIndexFrom(bs: seq<Bucket>, id: string, i: nat): (r: Option<nat>)
    requires i <= |bs|
    requires forall j :: 0 <= j < i ==> bs[j].id != id
    ensures r.Some? ==> r.value < |bs| && bs[r.value].id == id && forall j :: 0 <= j < r.value ==> bs[j].id != id
    ensures r.None? ==> forall j :: 0 <= j < |bs| ==> bs[j].id != id
    decreases |bs| - i
  {
    if i == |bs| then None
    else if bs[i].id == id then Some(i)
    else FindIndexFrom(bs, id, i + 1)
  }

  /** `Math.max(0, Math.min(target, len))`. */
  function Clamp(target: int, len: nat): (c: nat)
    ensures c <= len
    ensures 0 <= target <= len ==> c == target
    ensures target < 0 ==> c == 0
    ensures target > len ==> c == len
  {
    if target < 0 then 0 else if target > len then len else target
  }

  /** `xs.splice(i, 0, x)`: `x` inserted before position `i`. */
  function InsertAt<T>(xs: seq<T>, i: nat, x: T): (r: seq<T>)
    requires i <= |xs|
    ensures |r| == |xs| + 1 && r[i] == x
    ensures r[..i] == xs[..i] && r[i + 1..] == xs[i..]
    ensures multiset(r) == multiset(xs) + multiset{x}
  {
    assert xs == xs[..i] + xs[i..];
    xs[..i] + [x] + xs[i..]
  }

  /** `handleMoveTerm`: the term at `sourceIndex` of the first bucket with `sourceId` is taken
      out and inserted, at the clamped `targetIndex`, into the first bucket with `targetId`.
      Unknown ids or a source index out of range change nothing. */
  function MoveTerm(bs: seq<Bucket>, sourceId: string, sourceIndex: int, targetId: string, targetIndex: int): (r: seq<Bucket>)
    ensures |r| == |bs|
    ensures FindIndex(bs, sourceId).None? || FindIndex(bs, targetId).None? ==> r == bs
    ensures FindIndex(bs, sourceId).Some? && !(0 <= sourceIndex < |bs[FindIndex(bs, sourceId).value].terms|) ==> r == bs
  {
    match (FindIndex(bs, sourceId), FindIndex(bs, targetId))
    case (Some(si), Some(ti)) =>
      var source := bs[si];
      if !(0 <= sourceIndex < |source.terms|) then bs
      else
        var term := source.terms[sourceIndex];
        var rest := RemoveAt(source.terms, sourceIndex);
        if sourceId == targetId then
          bs[si := source.(terms := InsertAt(rest, Clamp(targetIndex, |rest|), term))]
        else
          var target := bs[ti];
          bs[si := source.(terms := rest)][ti := target.(terms := InsertAt(target.terms, Clamp(targetIndex, |target.terms|), term))]
    case _ => bs
  }

  /** All the terms of all the buckets, as a multiset. */
  function AllTerms(bs: seq<Bucket>): multiset<Term> {
    if bs == [] then multiset{} else multiset(bs[0].terms) + AllTerms(bs[1..])
  }

  lemma {:induction false} AllTermsUpdate(bs: seq<Bucket>, i: nat, b: Bucket)
    requires i < |bs|
    ensures AllTerms(bs[i := b]) + multiset(bs[i].terms) == AllTerms(bs) + multiset(b.terms)
  {
    if i > 0 {
      var tail := bs[1..];
      AllTermsUpdate(tail, i - 1, b);
      assert bs[i := b][1..] == tail[i - 1 := b];
      assert bs[i := b][0] == bs[0];
      assert tail[i - 1] == bs[i];
      assert AllTerms(bs[i := b]) == multiset(bs[0].terms) + AllTerms(tail[i - 1 := b]);
      assert AllTerms(bs) == multiset(bs[0].terms) + AllTerms(tail);
      var lhs, rhs := AllTerms(bs[i := b]) + multiset(bs[i].terms), AllTerms(bs) + multiset(b.terms);
      forall x ensures lhs[x] == rhs[x] {
        assert (AllTerms(tail[i - 1 := b]) + multiset(bs[i].terms))[x] == (AllTerms(tail) + multiset(b.terms))[x];
      }
      assert lhs == rhs;
    } else {
      assert bs[i := b][1..] == bs[1..];
    }
  }

  /** Moving a term neither creates nor loses a term: the multiset of all terms is unchanged. */
  lemma MoveTermKeepsTerms(bs: seq<Bucket>, sourceId: string, sourceIndex: int, targetId: string, targetIndex: int)
    ensures AllTerms(MoveTerm(bs, sourceId, sourceIndex, targetId, targetIndex)) == AllTerms(bs)
  {
    var fs, ft := FindIndex(bs, sourceId), FindIndex(bs, targetId);
    if fs.Some? && ft.Some? && 0 <= sourceIndex < |bs[fs.value].terms| {
      var si, ti := fs.value, ft.value;
      var source := bs[si];
      var term := source.terms[sourceIndex];
      var rest := RemoveAt(source.terms, sourceIndex);
      if sourceId == targetId {
        MoveWithinKeepsTerms(bs, si, rest, term, Clamp(targetIndex, |rest|));
      } else {
        MoveAcrossKeepsTerms(bs, si, ti, rest, term, Clamp(targetIndex, |bs[ti].terms|));
      }
    }
  }

  /** Replacing bucket `i` by one holding the same terms plus `extra` adds `extra` to the total. */
  lemma AllTermsGrow(bs: seq<Bucket>, i: nat, b: Bucket, extra: multiset<Term>)
    requires i < |bs| && multiset(b.terms) == multiset(bs[i].terms) + extra
    ensures AllTerms(bs[i := b]) == AllTerms(bs) + extra
  {
    AllTermsUpdate(bs, i, b);
    var lhs, rhs := AllTerms(bs[i := b]), AllTerms(bs) + extra;
    forall x ensures lhs[x] == rhs[x] {
      assert (lhs + multiset(bs[i].terms))[x] == (AllTerms(bs) + multiset(b.terms))[x];
    }
    assert lhs == rhs;
  }

  lemma MoveWithinKeepsTerms(bs: seq<Bucket>, si: nat, rest: seq<Term>, term: Term, at: nat)
    requires si < |bs| && at <= |rest|
    requires multiset(rest) + multiset{term} == multiset(bs[si].terms)
    ensures AllTerms(bs[si := bs[si].(terms := InsertAt(rest, at, term))]) == AllTerms(bs)
  {
    var moved := bs[si].(terms := InsertAt(rest, at, term));
    AllTermsGrow(bs, si, moved, multiset{});
    assert AllTerms(bs) + multiset{} == AllTerms(bs);
  }

  lemma MoveAcrossKeepsTerms(bs: seq<Bucket>, si: nat, ti: nat, rest: seq<Term>, term: Term, at: nat)
    requires si < |bs| && ti < |bs| && si != ti && at <= |bs[ti].terms|
    requires multiset(rest) + multiset{term} == multiset(bs[si].terms)
    ensures AllTerms(bs[si := bs[si].(terms := rest)][ti := bs[ti].(terms := InsertAt(bs[ti].terms, at, term))]) == AllTerms(bs)
  {
    var bs1 := bs[si := bs[si].(terms := rest)];
    assert bs1[si := bs[si]] == bs;
    AllTermsGrow(bs1, si, bs[si], multiset{term});
    assert bs1[ti] == bs[ti];
    AllTermsGrow(bs1, ti, bs[ti].(terms := InsertAt(bs[ti].terms, at, term)), multiset{term});
  }

  /** A successful move puts the term at the clamped target position (clamped against the list
      without the term for a move inside one bucket), and leaves every other bucket alone. */
  lemma MoveTermLands(bs: seq<Bucket>, sourceId: string, sourceIndex: int, targetId: string, targetIndex: int)
    requires FindIndex(bs, sourceId).Some? && FindIndex(bs, targetId).Some?
    requires 0 <= sourceIndex < |bs[FindIndex(bs, sourceId).value].terms|
    ensures var si, ti := FindIndex(bs, sourceId).value, FindIndex(bs, targetId).value;
      var r := MoveTerm(bs, sourceId, sourceIndex, targetId, targetIndex);
      var term := bs[si].terms[sourceIndex];
      && (sourceId == targetId ==> r[ti].terms[Clamp(targetIndex, |bs[ti].terms| - 1)] == term)
      && (sourceId != targetId ==> r[ti].terms[Clamp(targetIndex, |bs[ti].terms|)] == term)
      && (sourceId != targetId ==> |r[si].terms| == |bs[si].terms| - 1 && |r[ti].terms| == |bs[ti].terms| + 1)
      && (forall k :: 0 <= k < |bs| && k != si && k != ti ==> r[k] == bs[k])
      && (forall k :: 0 <= k < |bs| ==> r[k] == bs[k].(terms := r[k].terms))
  {
  }

  // ---------------------------------------------------------------------------------------------
  // Reordering buckets

  /** `new Map(prev.map(b => [b.id, b])).get(id)`: a later entry overwrites an earlier one, so
      this is the last bucket with the id. */
  function LastWithId(bs: seq<Bucket>, id: string): (r: Option<Bucket>)
    ensures r.None? <==> forall k :: 0 <= k < |bs| ==> bs[k].id != id
    ensures r.Some? ==>
      exists k :: 0 <= k < |bs| && bs[k] == r.value && bs[k].id == id && (forall j :: k < j < |bs| ==> bs[j].id != id)
  {
    if bs == [] then None
    else if bs[|bs| - 1].id == id then Some(bs[|bs| - 1])
    else
      var r := LastWithId(bs[..|bs| - 1], id);
      assert forall j :: 0 <= j < |bs| - 1 ==> bs[..|bs| - 1][j] == bs[j];
      r
  }

  /** The buckets the reorder loop collects from the first `|ids|` ids: one per known id, in the
      order of `ids`; unknown ids are skipped. */
  function Picked(prev: seq<Bucket>, ids: seq<string>): (r: seq<Bucket>)
    ensures |r| <= |ids|
    ensures forall b :: b in r ==> b in prev
  {
    if ids == [] then []
    else
      var last := LastWithId(prev, ids[|ids| - 1]);
      Picked(prev, ids[..|ids| - 1]) + (if last.Some? then [last.value] else [])
  }

  /** The ids that some bucket has, in the order given. */
  function KnownIds(prev: seq<Bucket>, ids: seq<string>): seq<string> {
    if ids == [] then []
    else
      var id := ids[|ids| - 1];
      KnownIds(prev, ids[..|ids| - 1]) + (if exists k :: 0 <= k < |prev| && prev[k].id == id then [id] else [])
  }

  /** The reordered list holds one bucket per known id, with that id, in the order of `ids`. */
  lemma {:induction false} PickedFollowsIds(prev: seq<Bucket>, ids: seq<string>)
    ensures |Picked(prev, ids)| == |KnownIds(prev, ids)|
    ensures forall k :: 0 <= k < |Picked(prev, ids)| ==> Picked(prev, ids)[k].id == KnownIds(prev, ids)[k]
  {
    if ids != [] {
      PickedFollowsIds(prev, ids[..|ids| - 1]);
    }
  }

  /** `handleReorderBuckets(ids)`: the collected buckets, or the previous list when none was found. */
  function Reorder(prev: seq<Bucket>, ids: seq<string>): (r: seq<Bucket>)
    ensures forall b :: b in r ==> b in prev
    ensures prev != [] ==> r != []
  {
    var picked := Picked(prev, ids);
    if picked == [] then prev else picked
  }

  /** The reorder handler's loop: look each id up and push the bucket found. */
  method ReorderBuckets(prev: seq<Bucket>, ids: seq<string>) returns (r: seq<Bucket>)
    ensures r == Reorder(prev, ids)
  {
    var reordered: seq<Bucket> := [];
    var i := 0;
    while i < |ids|
      invariant 0 <= i <= |ids|
      invariant reordered == Picked(prev, ids[..i])
    {
      assert ids[..i + 1][..i] == ids[..i];
      var found := LastWithId(prev, ids[i]);
      if found.Some? {
        reordered := reordered + [found.value];
      }
      i := i + 1;
    }
    assert ids[..i] == ids;
    if reordered == [] {
      return prev;
    }
    return reordered;
  }

  /** The ids of a bucket list, in order. */
  function IdsOf(bs: seq<Bucket>): (r: seq<string>)
    ensures |r| == |bs| && forall k :: 0 <= k < |bs| ==> r[k] == bs[k].id
  {
    seq(|bs|, k requires 0 <= k < |bs| => bs[k].id)
  }

  /** No two buckets share an id. */
  predicate DistinctIds(bs: seq<Bucket>) {
    forall i, j :: 0 <= i < j < |bs| ==> bs[i].id != bs[j].id
  }

  lemma {:induction false} LastWithIdDistinct(bs: seq<Bucket>, k: nat)
    requires DistinctIds(bs) && k < |bs|
    ensures LastWithId(bs, bs[k].id) == Some(bs[k])
  {
    if k < |bs| - 1 {
      LastWithIdDistinct(bs[..|bs| - 1], k);
    }
  }

  lemma {:induction false} PickedOwnIds(bs: seq<Bucket>, n: nat)
    requires DistinctIds(bs) && n <= |bs|
    ensures Picked(bs, IdsOf(bs)[..n]) == bs[..n]
  {
    if n > 0 {
      PickedOwnIds(bs, n - 1);
      assert IdsOf(bs)[..n][..n - 1] == IdsOf(bs)[..n - 1];
      LastWithIdDistinct(bs, n - 1);
      assert bs[..n] == bs[..n - 1] + [bs[n - 1]];
    }
  }

  /** With distinct ids, reordering by the list's own ids keeps the list as it is. */
  lemma ReorderByOwnIds(bs: seq<Bucket>)
    requires DistinctIds(bs)
    ensures Reorder(bs, IdsOf(bs)) == bs
  {
    PickedOwnIds(bs, |bs|);
    assert IdsOf(bs)[..|bs|] == IdsOf(bs);
    assert bs[..|bs|] == bs;
  }

  // ---------------------------------------------------------------------------------------------
  // Deleting and adding buckets

  /** `prev.filter(b => b.id !== id)`. */
  function WithoutId(bs: seq<Bucket>, id: string): (r: seq<Bucket>)
    ensures |r| <= |bs|
    ensures forall b :: b in r <==> b in bs && b.id != id
  {
    if bs == [] then []
    else (if bs[0].id != id then [bs[0]] else []) + WithoutId(bs[1..], id)
  }

  /** The filter goes bucket by bucket: over a concatenation it is the concatenation of the
      filtered parts, so the remaining buckets keep their order and multiplicity. */
  lemma {:induction false} WithoutIdAppend(xs: seq<Bucket>, ys: seq<Bucket>, id: string)
    ensures WithoutId(xs + ys, id) == WithoutId(xs, id) + WithoutId(ys, id)
  {
    if xs != [] {
      var h := if xs[0].id != id then [xs[0]] else [];
      assert (xs + ys)[0] == xs[0] && (xs + ys)[1..] == xs[1..] + ys;
      calc {
        WithoutId(xs + ys, id);
        h + WithoutId(xs[1..] + ys, id);
        { WithoutIdAppend(xs[1..], ys, id); }
        h + (WithoutId(xs[1..], id) + WithoutId(ys, id));
        (h + WithoutId(xs[1..], id)) + WithoutId(ys, id);
      }
    } else {
      assert xs + ys == ys;
    }
  }

  /** One bucket stays exactly when its id differs. */
  lemma WithoutIdSingle(b: Bucket, id: string)
    ensures WithoutId([b], id) == if b.id != id then [b] else []
  {
  }

  /** `handleDeleteBucket(id)`: every bucket with the id goes; when none would remain, the list
      becomes the single default bucket. */
  function DeleteBucket(bs: seq<Bucket>, id: string): (r: seq<Bucket>)
    ensures r != []
    ensures r == WithoutId(bs, id) || (WithoutId(bs, id) == [] && r == DefaultBuckets)
  {
    var filtered := WithoutId(bs, id);
    if filtered == [] then DefaultBuckets else filtered
  }

  /** Deleting the id every bucket has leaves exactly the default bucket. */
  lemma DeleteLastBucket(bs: seq<Bucket>, id: string)
    requires forall k :: 0 <= k < |bs| ==> bs[k].id == id
    ensures DeleteBucket(bs, id) == DefaultBuckets
  {
    WithoutSharedId(bs, id);
  }

  lemma {:induction false} WithoutSharedId(bs: seq<Bucket>, id: string)
    requires forall k :: 0 <= k < |bs| ==> bs[k].id == id
    ensures WithoutId(bs, id) == []
  {
    if bs != [] {
      WithoutSharedId(bs[1..], id);
    }
  }

  lemma {:induction false} WithoutUnknownId(bs: seq<Bucket>, id: string)
    requires forall k :: 0 <= k < |bs| ==> bs[k].id != id
    ensures WithoutId(bs, id) == bs
  {
    if bs != [] {
      WithoutUnknownId(bs[1..], id);
    }
  }

  /** Deleting an id no bucket has changes nothing (the list is never empty in the app). */
  lemma DeleteUnknownBucket(bs: seq<Bucket>, id: string)
    requires bs != []
    requires forall k :: 0 <= k < |bs| ==> bs[k].id != id
    ensures DeleteBucket(bs, id) == bs
  {
    WithoutUnknownId(bs, id);
  }

  /** The most buckets the add button creates. */
  const MaxBuckets := 8

  /** The bucket added as the `n`-th: `bucket-n`, "Bucket n", enabled, no terms, AND. */
  function NewBucket(n: nat): Bucket {
    Bucket("bucket-" + NatToString(n), "Bucket " + NatToString(n), [], true, And)
  }

  /** `handleAddBucket`: append the next numbered bucket unless there are eight already. */
  function AddBucket(bs: seq<Bucket>): (r: seq<Bucket>)
    ensures |bs| >= MaxBuckets ==> r == bs
    ensures |bs| < MaxBuckets ==> |r| == |bs| + 1 && r[..|bs|] == bs
    ensures |bs| < MaxBuckets ==> r[|bs|].terms == [] && r[|bs|].isEnabled && r[|bs|].operatorAfter == And
    ensures |bs| < MaxBuckets ==>
      r[|bs|].id == "bucket-" + NatToString(|bs| + 1) && r[|bs|].name == "Bucket " + NatToString(|bs| + 1)
  {
    if |bs| >= MaxBuckets then bs else bs + [NewBucket(|bs| + 1)]
  }

  /** Buckets added at different counts get different ids and names. */
  lemma NewBucketIdsDiffer(m: nat, n: nat)
    ensures NewBucket(m).id == NewBucket(n).id <==> m == n
    ensures NewBucket(m).name == NewBucket(n).name <==> m == n
  {
    if NewBucket(m).id == NewBucket(n).id {
      assert NatToString(m) == NewBucket(m).id[7..];
      assert NatToString(n) == NewBucket(n).id[7..];
      NatToStringInjective(m, n);
    }
    if NewBucket(m).name == NewBucket(n).name {
      assert NatToString(m) == NewBucket(m).name[7..];
      assert NatToString(n) == NewBucket(n).name[7..];
      NatToStringInjective(m, n);
    }
  }

  /** `AddBucket` applied `n` times. */
  function AddBucketTimes(bs: seq<Bucket>, n: nat): seq<Bucket>
    decreases n
  {
    if n == 0 then bs else AddBucketTimes(AddBucket(bs), n - 1)
  }

  /** However often the add button is pressed, a list of at most eight buckets grows to at most
      eight: exactly `min(|bs| + n, 8)`. */
  lemma {:induction false} AddBucketCap(bs: seq<Bucket>, n: nat)
    requires |bs| <= MaxBuckets
    decreases n
    ensures |AddBucketTimes(bs, n)| == if |bs| + n <= MaxBuckets then |bs| + n else MaxBuckets
  {
    if n > 0 {
      AddBucketCap(AddBucket(bs), n - 1);
    }
  }

  /** Ids can repeat: deleting "bucket-1" from the list of buckets 1 and 2 and adding a bucket
      gives two buckets with id "bucket-2". */
  lemma DuplicateIdAfterDelete()
    ensures var r := AddBucket(DeleteBucket([NewBucket(1), NewBucket(2)], "bucket-1"));
      |r| == 2 && r[0].id == r[1].id == "bucket-2"
  {
    assert NatToString(1) == "1";
    assert NatToString(2) == "2";
    var bs := [NewBucket(1), NewBucket(2)];
    assert NewBucket(1).id == "bucket-1";
    assert NewBucket(2).id == "bucket-2";
    assert bs[1..] == [NewBucket(2)];
    assert WithoutId(bs, "bucket-1") == [NewBucket(2)];
  }

  // ---------------------------------------------------------------------------------------------
  // Restoring persisted state

  /** A term as it may come back from storage: a well-formed term record, a plain string (the
      older format), or anything else (null, undefined, a record missing a field). */
  datatype PersistedTerm = Stored(term: Term) | Legacy(text: string) | Malformed

  /** A bucket as it may come back from storage. */
  datatype PersistedBucket = PersistedBucket(
    id: string,
    name: string,
    terms: seq<PersistedTerm>,
    isEnabled: bool,
    operatorAfter: Operator)

  /** `normalizeTerm(term, index)`: a well-formed record is kept as is; anything else becomes a new
      term with a fresh id, the string's text (or "" when it is not a string) and the colour of
      its position. */
  function NormalizeTerm(t: PersistedTerm, index: nat, freshId: string): (r: Term)
    ensures t.Stored? ==> r == t.term
    ensures t.Legacy? ==> r == Term(freshId, t.text, TermColors[index % 10])
    ensures t.Malformed? ==> r.value == ""
  {
    match t
    case Stored(term) => term
    case Legacy(text) => Term(freshId, text, PickTermColor(index))
    case Malformed => Term(freshId, "", PickTermColor(index))
  }

  /** `terms.filter(t => Boolean(t.value))`: the terms with a non-empty value, in order. */
  function KeepNonEmpty(ts: seq<Term>): (r: seq<Term>)
    ensures |r| <= |ts|
    ensures forall t :: t in r <==> t in ts && t.value != ""
  {
    if ts == [] then []
    else (if ts[0].value != "" then [ts[0]] else []) + KeepNonEmpty(ts[1..])
  }

  /** The filter over a concatenation is the concatenation of the filtered parts, so survivors
      keep their order and multiplicity. */
  lemma {:induction false} KeepNonEmptyAppend(xs: seq<Term>, ys: seq<Term>)
    ensures KeepNonEmpty(xs + ys) == KeepNonEmpty(xs) + KeepNonEmpty(ys)
  {
    if xs != [] {
      var h := if xs[0].value != "" then [xs[0]] else [];
      assert (xs + ys)[0] == xs[0] && (xs + ys)[1..] == xs[1..] + ys;
      calc {
        KeepNonEmpty(xs + ys);
        h + KeepNonEmpty(xs[1..] + ys);
        { KeepNonEmptyAppend(xs[1..], ys); }
        h + (KeepNonEmpty(xs[1..]) + KeepNonEmpty(ys));
        (h + KeepNonEmpty(xs[1..])) + KeepNonEmpty(ys);
      }
    } else {
      assert xs + ys == ys;
    }
  }

  lemma {:induction false} KeepNonEmptyAll(ts: seq<Term>)
    requires forall i :: 0 <= i < |ts| ==> ts[i].value != ""
    ensures KeepNonEmpty(ts) == ts
  {
    if ts != [] {
      KeepNonEmptyAll(ts[1..]);
    }
  }

  /** The terms of one persisted bucket, normalised; `freshId(i)` is the id generated for the
      term at position `i`. Colours go by position before empty terms are dropped. */
  function NormalizeTerms(ts: seq<PersistedTerm>, freshId: nat -> string): (r: seq<Term>)
    ensures forall t :: t in r ==> t.value != ""
  {
    KeepNonEmpty(NormalizedEach(ts, freshId))
  }

  /** `terms.map(normalizeTerm)`, before the empty ones are dropped. */
  function NormalizedEach(ts: seq<PersistedTerm>, freshId: nat -> string): (r: seq<Term>)
    ensures |r| == |ts| && forall i :: 0 <= i < |ts| ==> r[i] == NormalizeTerm(ts[i], i, freshId(i))
  {
    seq(|ts|, i requires 0 <= i < |ts| => NormalizeTerm(ts[i], i, freshId(i)))
  }

  /** Normalising one more stored entry appends its term, unless its value is empty: the
      restored list is built entry by entry, in stored order, and a position's colour does not
      depend on what comes after it. */
  lemma NormalizeTermsStep(ts: seq<PersistedTerm>, freshId: nat -> string, i: nat)
    requires i < |ts|
    ensures var t := NormalizeTerm(ts[i], i, freshId(i));
      NormalizeTerms(ts[..i + 1], freshId) ==
        NormalizeTerms(ts[..i], freshId) + (if t.value != "" then [t] else [])
  {
    var all := NormalizedEach(ts[..i + 1], freshId);
    assert all == NormalizedEach(ts[..i], freshId) + [all[i]];
    KeepNonEmptyAppend(NormalizedEach(ts[..i], freshId), [all[i]]);
  }

  /** The entries up to position `i` restore to a prefix of the whole restored list. */
  lemma NormalizeTermsPrefix(ts: seq<PersistedTerm>, freshId: nat -> string, i: nat)
    requires i <= |ts|
    ensures var p := NormalizeTerms(ts[..i], freshId);
      |p| <= |NormalizeTerms(ts, freshId)| && NormalizeTerms(ts, freshId)[..|p|] == p
  {
    var all := NormalizedEach(ts, freshId);
    assert all == NormalizedEach(ts[..i], freshId) + all[i..];
    KeepNonEmptyAppend(NormalizedEach(ts[..i], freshId), all[i..]);
  }

  /** An entry whose normalised term has a value lands in the restored list right after what
      the entries before it restore to. */
  lemma NormalizeTermLands(ts: seq<PersistedTerm>, freshId: nat -> string, i: nat)
    requires i < |ts| && NormalizeTerm(ts[i], i, freshId(i)).value != ""
    ensures var p := NormalizeTerms(ts[..i], freshId);
      |p| < |NormalizeTerms(ts, freshId)| && NormalizeTerms(ts, freshId)[..|p|] == p &&
      NormalizeTerms(ts, freshId)[|p|] == NormalizeTerm(ts[i], i, freshId(i))
  {
    var t := NormalizeTerm(ts[i], i, freshId(i));
    var r, p, q := NormalizeTerms(ts, freshId), NormalizeTerms(ts[..i], freshId), NormalizeTerms(ts[..i + 1], freshId);
    NormalizeTermsStep(ts, freshId, i);
    assert q == p + [t];
    NormalizeTermsPrefix(ts, freshId, i + 1);
    assert r[..|q|] == q;
    assert r[..|p|] == q[..|p|];
    assert r[|p|] == q[|p|];
  }

  /** A well-formed stored term with a non-empty value comes back exactly as stored, whatever
      the other entries are, right after what the entries before it restore to. */
  lemma NormalizeKeepsStoredTerms(ts: seq<PersistedTerm>, freshId: nat -> string, i: nat)
    requires i < |ts| && ts[i].Stored? && ts[i].term.value != ""
    ensures var r, p := NormalizeTerms(ts, freshId), NormalizeTerms(ts[..i], freshId);
      |p| < |r| && r[..|p|] == p && r[|p|] == ts[i].term
  {
    NormalizeTermLands(ts, freshId, i);
  }

  /** Entries that survive keep their stored order: a later surviving entry lands at a later
      position. */
  lemma NormalizeKeepsOrder(ts: seq<PersistedTerm>, freshId: nat -> string, i: nat, j: nat)
    requires i < j <= |ts| && NormalizeTerm(ts[i], i, freshId(i)).value != ""
    ensures |NormalizeTerms(ts[..i], freshId)| < |NormalizeTerms(ts[..j], freshId)|
  {
    var tj := ts[..j];
    assert tj[..i] == ts[..i] && tj[i] == ts[i];
    NormalizeTermLands(tj, freshId, i);
  }

  /** A list of well-formed terms with non-empty values comes back exactly as stored. */
  lemma NormalizeAllStored(ts: seq<PersistedTerm>, freshId: nat -> string)
    requires forall i :: 0 <= i < |ts| ==> ts[i].Stored? && ts[i].term.value != ""
    ensures |NormalizeTerms(ts, freshId)| == |ts|
    ensures forall i :: 0 <= i < |ts| ==> NormalizeTerms(ts, freshId)[i] == ts[i].term
  {
    var mapped := NormalizedEach(ts, freshId);
    KeepNonEmptyAll(mapped);
  }

  /** A non-empty string term at position `i` becomes a term with that text, a fresh id and the
      colour of position `i` (counted before empty terms are dropped), in its stored place. */
  lemma NormalizeLegacyTerm(ts: seq<PersistedTerm>, freshId: nat -> string, i: nat)
    requires i < |ts| && ts[i].Legacy? && ts[i].text != ""
    ensures var r, p := NormalizeTerms(ts, freshId), NormalizeTerms(ts[..i], freshId);
      |p| < |r| && r[..|p|] == p && r[|p|] == Term(freshId(i), ts[i].text, TermColors[i % 10])
  {
    NormalizeTermLands(ts, freshId, i);
  }

  /** A term that is neither a record nor a string never survives normalisation. */
  lemma NormalizeDropsMalformed(ts: seq<PersistedTerm>, freshId: nat -> string)
    ensures |NormalizeTerms(ts, freshId)| <= |ts|
    ensures forall t :: t in NormalizeTerms(ts, freshId) ==> exists i :: 0 <= i < |ts| && !ts[i].Malformed? && t == NormalizeTerm(ts[i], i, freshId(i))
  {
    var mapped := NormalizedEach(ts, freshId);
    forall t | t in NormalizeTerms(ts, freshId)
      ensures exists i :: 0 <= i < |ts| && !ts[i].Malformed? && t == NormalizeTerm(ts[i], i, freshId(i))
    {
      assert t in mapped;
      var i :| 0 <= i < |ts| && mapped[i] == t;
      assert t == NormalizeTerm(ts[i], i, freshId(i));
    }
  }

  /** `normalizeBuckets`: every bucket keeps its fields and gets its terms normalised;
      `freshId(b, i)` is the id generated for term `i` of bucket `b`. */
  function NormalizeBuckets(raw: seq<PersistedBucket>, freshId: (nat, nat) -> string): (r: seq<Bucket>)
    ensures |r| == |raw|
    ensures forall k :: 0 <= k < |raw| ==>
      && r[k].id == raw[k].id && r[k].name == raw[k].name
      && r[k].isEnabled == raw[k].isEnabled && r[k].operatorAfter == raw[k].operatorAfter
      && r[k].terms == NormalizeTerms(raw[k].terms, (i: nat) => freshId(k, i))
      && forall t :: t in r[k].terms ==> t.value != ""
  {
    seq(|raw|, k requires 0 <= k < |raw| =>
      var b := raw[k];
      Bucket(b.id, b.name, NormalizeTerms(b.terms, (i: nat) => freshId(k, i)), b.isEnabled, b.operatorAfter))
  }

  /** What `JSON.parse` of the stored builder state gave, when it held a bucket array. */
  datatype PersistedState = PersistedState(buckets: seq<PersistedBucket>, outputMode: string)

  /** `loadInitialState`: `stored` is `None` when nothing usable was stored (no entry, invalid
      JSON, no bucket array). The mode is minified only when "minified" was stored; an empty
      bucket array restores the default bucket. */
  function RestoreState(stored: Option<PersistedState>, freshId: (nat, nat) -> string): (r: BuilderState)
    ensures r.buckets != []
    ensures r.outputMode == Minified <==> stored.Some? && stored.value.outputMode == "minified"
    ensures stored.None? ==> r.buckets == DefaultBuckets
    ensures stored.Some? && stored.value.buckets == [] ==> r.buckets == DefaultBuckets
    ensures stored.Some? && stored.value.buckets != [] ==> r.buckets == NormalizeBuckets(stored.value.buckets, freshId)
  {
    match stored
    case None => BuilderState(DefaultBuckets, Pretty)
    case Some(s) =>
      var mode := if s.outputMode == "minified" then Minified else Pretty;
      var buckets := if |s.buckets| > 0 then NormalizeBuckets(s.buckets, freshId) else DefaultBuckets;
      BuilderState(buckets, mode)
  }
}
