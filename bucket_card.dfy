/** The decision logic of a bucket card (src/components/BucketCard.tsx): what pressing Enter in
    the add-term box sends to the add-term handler, and the operator choices. */
module BucketCard {
  import opened Wrappers
  import opened Text
  import opened Types
  import opened Buckets

  /** The characters `/[\n,]/` splits a paste on. */
  const PasteSeparators: set<char> := {'\n', ','}

  /** `value.includes("\n") || value.includes(",")`. */
  predicate HasSeparator(value: string) {
    Contains(value, "\n") || Contains(value, ",")
  }

  lemma HasSeparatorIff(value: string)
    ensures HasSeparator(value) <==> exists i :: 0 <= i < |value| && value[i] in PasteSeparators
  {
    ContainsChar(value, '\n');
    ContainsChar(value, ',');
  }

  /** `.map(p => p.trim()).filter(Boolean)`: the trimmed pieces that are not empty, in order. */
  function TrimmedPieces(ps: seq<string>): (r: seq<string>)
    ensures |r| <= |ps|
    ensures forall p :: p in r ==> p != "" && Trim(p) == p && exists q :: q in ps && Trim(q) == p
  {
    if ps == [] then []
    else
      TrimIdempotent(ps[0]);
      (if Trim(ps[0]) == "" then [] else [Trim(ps[0])]) + TrimmedPieces(ps[1..])
  }

  /** Over a concatenation of piece lists, the kept pieces are those of each part, in order. */
  lemma {:induction false} TrimmedPiecesAppend(xs: seq<string>, ys: seq<string>)
    ensures TrimmedPieces(xs + ys) == TrimmedPieces(xs) + TrimmedPieces(ys)
  {
    if xs != [] {
      TrimmedPiecesAppend(xs[1..], ys);
      assert (xs + ys)[0] == xs[0] && (xs + ys)[1..] == xs[1..] + ys;
    } else {
      assert xs + ys == ys;
    }
  }

  /** One piece is kept, trimmed, exactly when it is not blank. */
  lemma TrimmedPiecesSingle(q: string)
    ensures TrimmedPieces([q]) == if IsBlank(q) then [] else [Trim(q)]
  {
    TrimEmptyIffBlank(q);
    assert [q][1..] == [];
  }

  /** Every non-blank piece is kept, trimmed, right after what the pieces before it give. */
  lemma TrimmedPieceLands(ps: seq<string>, i: nat)
    requires i < |ps| && !IsBlank(ps[i])
    ensures var r, p := TrimmedPieces(ps), TrimmedPieces(ps[..i]);
      |p| < |r| && r[..|p|] == p && r[|p|] == Trim(ps[i])
  {
    assert ps == ps[..i] + ([ps[i]] + ps[i + 1..]);
    TrimmedPiecesAppend(ps[..i], [ps[i]] + ps[i + 1..]);
    TrimmedPiecesAppend([ps[i]], ps[i + 1..]);
    TrimmedPiecesSingle(ps[i]);
  }

  /** The texts the Enter handler passes to `onAddTerm`, in order: nothing for an empty box, the
      trimmed non-blank pieces of a paste holding line breaks or commas (each piece between
      separators, in input order), and otherwise the text as typed (trimming is left to the
      add-term handler). */
  function PastePieces(value: string): (r: seq<string>)
    ensures value == "" ==> r == []
    ensures value != "" && !HasSeparator(value) ==> r == [value]
    ensures HasSeparator(value) ==> r == TrimmedPieces(Split(value, PasteSeparators))
    ensures HasSeparator(value) ==> forall p :: p in r ==> p != "" && Trim(p) == p
  {
    if value == "" then []
    else if HasSeparator(value) then TrimmedPieces(Split(value, PasteSeparators))
    else [value]
  }

  /** No piece of a paste holds a line break or a comma. */
  lemma PastePiecesHaveNoSeparator(value: string)
    ensures forall p, i :: p in PastePieces(value) && 0 <= i < |p| ==> p[i] !in PasteSeparators
  {
    if value != "" && !HasSeparator(value) {
      HasSeparatorIff(value);
    } else if HasSeparator(value) {
      var parts := Split(value, PasteSeparators);
      forall p | p in PastePieces(value) ensures forall i :: 0 <= i < |p| ==> p[i] !in PasteSeparators {
        var q :| q in parts && Trim(q) == p;
        var k :| 0 <= k < |parts| && parts[k] == q;
        TrimKeepsOut(q, PasteSeparators);
      }
    }
  }

  lemma TrimKeepsOut(q: string, seps: set<char>)
    requires forall i :: 0 <= i < |q| ==> q[i] !in seps
    ensures forall i :: 0 <= i < |Trim(q)| ==> Trim(q)[i] !in seps
  {
    forall i | 0 <= i < |Trim(q)| ensures Trim(q)[i] !in seps {
      assert Trim(q)[i] == q[TrimStart(q) + i];
    }
  }

  lemma {:induction false} TrimmedPiecesOfClean(ws: seq<string>)
    requires forall k :: 0 <= k < |ws| ==> ws[k] != "" && Trim(ws[k]) == ws[k]
    ensures TrimmedPieces(ws) == ws
  {
    if ws != [] {
      TrimmedPiecesOfClean(ws[1..]);
    }
  }

  /** A comma-separated list of at least two clean words comes back as exactly those words. */
  lemma PasteRoundTrip(words: seq<string>)
    requires |words| >= 2
    requires forall k :: 0 <= k < |words| ==> words[k] != "" && Trim(words[k]) == words[k]
    requires forall k, i :: 0 <= k < |words| && 0 <= i < |words[k]| ==> words[k][i] !in PasteSeparators
    ensures PastePieces(Join(words, ",")) == words
  {
    var value := Join(words, ",");
    JoinHasSeparator(words, ',');
    HasSeparatorIff(value);
    assert value[|words[0]|] in PasteSeparators;
    SplitJoin(words, ',', PasteSeparators);
    TrimmedPiecesOfClean(words);
  }

  /** The bucket list after `onAddTerm(id, p)` for each piece in turn; `termIds(i)` is the id
      generated for the `i`-th call. */
  function AddEach(bs: seq<Bucket>, id: string, pieces: seq<string>, termIds: nat -> string): (r: seq<Bucket>)
    ensures |r| == |bs|
    ensures forall k :: 0 <= k < |bs| ==> r[k].id == bs[k].id
  {
    if pieces == [] then bs
    else AddTerm(AddEach(bs, id, pieces[..|pieces| - 1], termIds), id, pieces[|pieces| - 1], termIds(|pieces| - 1))
  }

  /** Adding keeps every value a bucket already holds. */
  lemma AddTermKeepsValues(bs: seq<Bucket>, id: string, raw: string, termId: string, k: nat, v: string)
    requires k < |bs| && HasValue(bs[k].terms, v)
    ensures HasValue(AddTerm(bs, id, raw, termId)[k].terms, v)
  {
    var r := AddTerm(bs, id, raw, termId);
    var i :| 0 <= i < |bs[k].terms| && bs[k].terms[i].value == v;
    assert r[k].terms[i] == bs[k].terms[i];
  }

  /** After a paste, every bucket with the id holds the trimmed text of every non-blank piece. */
  lemma {:induction false} AddEachAddsAll(bs: seq<Bucket>, id: string, pieces: seq<string>, termIds: nat -> string)
    ensures forall k, j :: 0 <= k < |bs| && bs[k].id == id && 0 <= j < |pieces| && !IsBlank(pieces[j]) ==>
      HasValue(AddEach(bs, id, pieces, termIds)[k].terms, Trim(pieces[j]))
  {
    if pieces != [] {
      var n := |pieces| - 1;
      var before := AddEach(bs, id, pieces[..n], termIds);
      AddEachAddsAll(bs, id, pieces[..n], termIds);
      if !IsBlank(pieces[n]) {
        AddTermPresent(before, id, pieces[n], termIds(n));
      }
      forall k, j | 0 <= k < |bs| && bs[k].id == id && 0 <= j < n && !IsBlank(pieces[j])
        ensures HasValue(AddEach(bs, id, pieces, termIds)[k].terms, Trim(pieces[j]))
      {
        assert pieces[..n][j] == pieces[j];
        AddTermKeepsValues(before, id, pieces[n], termIds(n), k, Trim(pieces[j]));
      }
    }
  }

  /** Pasting a list with repeated values still leaves each value at most once in every bucket. */
  lemma {:induction false} AddEachKeepsValuesDistinct(bs: seq<Bucket>, id: string, pieces: seq<string>, termIds: nat -> string)
    requires forall k :: 0 <= k < |bs| ==> DistinctValues(bs[k].terms)
    ensures forall k :: 0 <= k < |bs| ==> DistinctValues(AddEach(bs, id, pieces, termIds)[k].terms)
  {
    if pieces != [] {
      var n := |pieces| - 1;
      AddEachKeepsValuesDistinct(bs, id, pieces[..n], termIds);
      AddTermKeepsValuesDistinct(AddEach(bs, id, pieces[..n], termIds), id, pieces[n], termIds(n));
    }
  }

  /** The add-term text box of one bucket card. */
  class TermInput {
    var value: string

    constructor()
      ensures value == ""
    {
      value := "";
    }

    /** The Enter handler: hand each piece to the add-term handler in order, then clear the box. */
    method PressEnter(bs: seq<Bucket>, bucketId: string, termIds: nat -> string) returns (r: seq<Bucket>)
      modifies this
      ensures r == AddEach(bs, bucketId, PastePieces(old(value)), termIds)
      ensures value == ""
    {
      var pieces := PastePieces(value);
      r := bs;
      var i := 0;
      while i < |pieces|
        invariant 0 <= i <= |pieces|
        invariant r == AddEach(bs, bucketId, pieces[..i], termIds)
      {
        assert pieces[..i + 1][..i] == pieces[..i];
        r := AddTerm(r, bucketId, pieces[i], termIds(i));
        i := i + 1;
      }
      assert pieces[..i] == pieces;
      value := "";
    }
  }

  // ---------------------------------------------------------------------------------------------
  // Operator choices

  /** The `<option>` values of the operator menu, in menu order. */
  const OperatorOptions: seq<string> := ["AND", "OR", "AND NOT"]

  /** The operator an option value stands for. */
  function ParseOperator(text: string): (r: Option<Operator>)
    ensures r.Some? ==> OperatorText(r.value) == text
  {
    if text == "AND" then Some(And)
    else if text == "OR" then Some(Or)
    else if text == "AND NOT" then Some(AndNot)
    else None
  }

  /** The menu offers exactly the three operators, each once: every operator's text is an option,
      and every option reads back as the operator it names. */
  lemma OperatorOptionsComplete(op: Operator)
    ensures OperatorText(op) in OperatorOptions
    ensures ParseOperator(OperatorText(op)) == Some(op)
    ensures forall s :: s in OperatorOptions ==> ParseOperator(s).Some?
    ensures |OperatorOptions| == 3 && forall i, j :: 0 <= i < j < 3 ==> OperatorOptions[i] != OperatorOptions[j]
  {
    assert "AND" != "OR" && "AND" != "AND NOT" && "OR" != "AND NOT" by {
      assert "AND"[0] != "OR"[0];
      assert |"AND"| != |"AND NOT"|;
      assert "OR"[0] != "AND NOT"[0];
    }
  }
}
