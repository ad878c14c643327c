/** The serializer (src/lib/booleanBuilder.ts): renders the bucket list as a boolean search string.
    Each active bucket becomes a parenthesised OR-group of its formatted terms, and neighbouring
    groups are joined by the `operatorAfter` of the previous active bucket. */
module BooleanBuilder {
  import opened Text
  import opened Types

  /** The regular expression `/^".*"$/`: a double quote at each end and no line terminator between. */
  predicate IsQuoted(term: string) {
    |term| >= 2 && term[0] == '"' && term[|term| - 1] == '"' && SingleLine(term[1..|term| - 1])
  }

  /** One term as it appears in the query: trimmed, and wrapped in double quotes when it holds
      white space and is not already quoted. */
  function FormatTerm(raw: string): string {
    var term := Trim(raw);
    if term == "" then ""
    else if HasSpace(term) && !IsQuoted(term) then "\"" + term + "\""
    else term
  }

  /** `formatTerm` returns the trimmed term, wrapped in double quotes exactly when it holds white
      space and is not already quoted; blank input gives the empty string. */
  lemma FormatTermSpec(raw: string)
    ensures FormatTerm(raw) == "" <==> IsBlank(raw)
    ensures FormatTerm(raw) == Trim(raw) || FormatTerm(raw) == "\"" + Trim(raw) + "\""
    ensures FormatTerm(raw) == "\"" + Trim(raw) + "\"" <==> !IsBlank(raw) && HasSpace(Trim(raw)) && !IsQuoted(Trim(raw))
  {
    TrimEmptyIffBlank(raw);
  }

  /** Formatting a single-line term a second time changes nothing: a term that was quoted is
      recognised as quoted. */
  lemma FormatTermIdempotent(raw: string)
    requires SingleLine(raw)
    ensures FormatTerm(FormatTerm(raw)) == FormatTerm(raw)
  {
    var term := Trim(raw);
    var r := FormatTerm(raw);
    FormatTermSpec(raw);
    TrimShape(raw);
    TrimIdempotent(raw);
    if r == "\"" + term + "\"" {
      TrimNoop(r);
      assert r[1..|r| - 1] == term;
      assert SingleLine(term) by {
        forall i | 0 <= i < |term| ensures !IsLineTerminator(term[i]) {
          assert term[i] == raw[TrimStart(raw) + i];
        }
      }
      assert IsQuoted(r);
      HasSpaceIff(term);
      HasSpaceIff(r);
      assert HasSpace(r) by {
        var j :| 0 <= j < |term| && IsSpace(term[j]);
        assert r[j + 1] == term[j];
      }
    }
  }

  /** A term that spans lines is quoted again on every pass: `.` does not match a line break. */
  lemma FormatTermRequotesMultiLine()
    ensures FormatTerm("a\nb") == "\"a\nb\""
    ensures FormatTerm(FormatTerm("a\nb")) == "\"\"a\nb\"\""
  {
    var t := "a\nb";
    assert Trim(t) == t;
    assert HasSpace(t) by { assert IsSpace(t[1]); }
    var q := "\"a\nb\"";
    assert Trim(q) == q;
    assert !IsQuoted(q) by { assert q[1..|q| - 1][1] == '\n'; }
    assert HasSpace(q) by { assert IsSpace(q[2]); }
  }

  /** A bucket takes part in the query when it is enabled and holds at least one term. */
  predicate IsActive(b: Bucket) {
    b.isEnabled && |b.terms| > 0
  }

  /** The active buckets, in order (`buckets.filter(b => b.isEnabled && b.terms.length > 0)`). */
  function Active(buckets: seq<Bucket>): (r: seq<Bucket>)
    ensures |r| <= |buckets|
    ensures forall b :: b in r <==> b in buckets && IsActive(b)
  {
    if buckets == [] then []
    else (if IsActive(buckets[0]) then [buckets[0]] else []) + Active(buckets[1..])
  }

  lemma {:induction false} ActiveAppend(xs: seq<Bucket>, ys: seq<Bucket>)
    ensures Active(xs + ys) == Active(xs) + Active(ys)
  {
    if xs != [] {
      assert (xs + ys)[1..] == xs[1..] + ys;
      ActiveAppend(xs[1..], ys);
    } else {
      assert xs + ys == ys;
    }
  }

  /** The non-blank formatted terms of a bucket, in term order. */
  function FormattedTerms(terms: seq<Term>): (r: seq<string>)
    ensures |r| <= |terms|
    ensures forall k :: 0 <= k < |r| ==> r[k] != ""
  {
    if terms == [] then []
    else
      var f := FormatTerm(terms[0].value);
      (if f == "" then [] else [f]) + FormattedTerms(terms[1..])
  }

  /** When no term is blank, every term is formatted and kept, in order. */
  lemma {:induction false} FormattedTermsKeepOrder(terms: seq<Term>)
    requires forall k :: 0 <= k < |terms| ==> !IsBlank(terms[k].value)
    ensures |FormattedTerms(terms)| == |terms|
    ensures forall k :: 0 <= k < |terms| ==> FormattedTerms(terms)[k] == FormatTerm(terms[k].value)
  {
    if terms != [] {
      FormattedTermsKeepOrder(terms[1..]);
    }
  }

  /** No formatted term is left exactly when every term is blank. */
  lemma {:induction false} FormattedTermsEmptyIffBlank(terms: seq<Term>)
    ensures FormattedTerms(terms) == [] <==> forall k :: 0 <= k < |terms| ==> IsBlank(terms[k].value)
  {
    if terms != [] {
      FormattedTermsEmptyIffBlank(terms[1..]);
      FormatTermSpec(terms[0].value);
      assert forall k :: 1 <= k < |terms| ==> terms[k] == terms[1..][k - 1];
    }
  }

  /** A bucket's group, `(t1 OR t2 OR "t3 t4")`, or "" when all of its terms are blank. */
  function Group(b: Bucket): string {
    var formatted := FormattedTerms(b.terms);
    if formatted == [] then "" else "(" + Join(formatted, " OR ") + ")"
  }

  /** The group of every active bucket (`activeBuckets.map(...)`). */
  function Groups(active: seq<Bucket>): (r: seq<string>)
    ensures |r| == |active|
    ensures forall k :: 0 <= k < |active| ==> r[k] == Group(active[k])
  {
    seq(|active|, k requires 0 <= k < |active| => Group(active[k]))
  }

  /** The tokens the loop over the first `n` active buckets has pushed: each non-empty group,
      preceded (unless it belongs to the first active bucket) by the previous active bucket's
      operator. */
  function PartsUpTo(active: seq<Bucket>, groups: seq<string>, n: nat): seq<string>
    requires |groups| == |active| && n <= |active|
  {
    if n == 0 then []
    else
      var group := groups[n - 1];
      if group == "" then PartsUpTo(active, groups, n - 1)
      else if n - 1 == 0 then PartsUpTo(active, groups, n - 1) + [group]
      else PartsUpTo(active, groups, n - 1) + [OperatorText(active[n - 2].operatorAfter), group]
  }

  /** The token sequence of a bucket list; both output modes render these same tokens. */
  function Tokens(buckets: seq<Bucket>): seq<string> {
    var active := Active(buckets);
    PartsUpTo(active, Groups(active), |active|)
  }

  /** The token separator of each output mode. */
  function Separator(mode: OutputMode): string {
    match mode
    case Minified => " "
    case Pretty => "\n"
  }

  /** The query string `buildBoolean(buckets, mode)` returns. */
  function BooleanString(buckets: seq<Bucket>, mode: OutputMode): string {
    Join(Tokens(buckets), Separator(mode))
  }

  /** `buildBoolean`: filter the active buckets, build their groups, then push operators and groups
      in one pass and join them with the mode's separator. */
  method BuildBoolean(buckets: seq<Bucket>, mode: OutputMode) returns (s: string)
    ensures s == BooleanString(buckets, mode)
  {
    var active := Active(buckets);
    if |active| == 0 {
      assert Tokens(buckets) == [];
      return "";
    }
    var groups := Groups(active);
    var parts: seq<string> := [];
    var i := 0;
    while i < |active|
      invariant 0 <= i <= |active|
      invariant parts == PartsUpTo(active, groups, i)
    {
      var group := groups[i];
      ghost var next := PartsUpTo(active, groups, i + 1);
      assert group == "" ==> next == parts;
      assert group != "" && i == 0 ==> next == parts + [group];
      assert group != "" && i > 0 ==> next == parts + [OperatorText(active[i - 1].operatorAfter), group];
      if group != "" {
        if i == 0 {
          parts := parts + [group];
        } else {
          parts := parts + [OperatorText(active[i - 1].operatorAfter), group];
        }
      }
      i := i + 1;
    }
    assert parts == Tokens(buckets);
    s := Join(parts, Separator(mode));
  }

  /** With no enabled, non-empty bucket the query is empty. */
  lemma NoActiveBucketGivesEmptyString(buckets: seq<Bucket>, mode: OutputMode)
    requires forall k :: 0 <= k < |buckets| ==> !buckets[k].isEnabled || buckets[k].terms == []
    ensures BooleanString(buckets, mode) == ""
  {
    NoActiveBucket(buckets);
  }

  lemma {:induction false} NoActiveBucket(buckets: seq<Bucket>)
    requires forall k :: 0 <= k < |buckets| ==> !buckets[k].isEnabled || buckets[k].terms == []
    ensures Active(buckets) == []
  {
    if buckets != [] {
      NoActiveBucket(buckets[1..]);
    }
  }

  /** A disabled or empty bucket contributes neither a group nor an operator: the query is the
      same as if it were not in the list at all. */
  lemma InactiveBucketIsSkipped(xs: seq<Bucket>, b: Bucket, ys: seq<Bucket>, mode: OutputMode)
    requires !IsActive(b)
    ensures BooleanString(xs + [b] + ys, mode) == BooleanString(xs + ys, mode)
  {
    ActiveAppend(xs + [b], ys);
    ActiveAppend(xs, [b]);
    ActiveAppend(xs, ys);
    assert Active([b]) == [];
    assert Active(xs + [b]) == Active(xs);
    assert Active(xs + [b] + ys) == Active(xs + ys);
  }

  /** When every active group is non-empty, the tokens alternate group, operator, group, ...: the
      `k`-th group is followed by the operator of the `k`-th active bucket, and there is no
      operator before the first group or after the last. */
  lemma {:induction false} PartsAlternate(active: seq<Bucket>, groups: seq<string>, n: nat)
    requires |groups| == |active| && n <= |active|
    requires forall k :: 0 <= k < |groups| ==> groups[k] != ""
    ensures n == 0 ==> PartsUpTo(active, groups, n) == []
    ensures n > 0 ==> |PartsUpTo(active, groups, n)| == 2 * n - 1
    ensures forall k :: 0 <= k < n ==> PartsUpTo(active, groups, n)[2 * k] == groups[k]
    ensures forall k :: 0 <= k < n - 1 ==> PartsUpTo(active, groups, n)[2 * k + 1] == OperatorText(active[k].operatorAfter)
  {
    if n > 0 {
      PartsAlternate(active, groups, n - 1);
    }
  }

  /** A blank group pushes nothing, and the next non-blank group is preceded by the blank bucket's
      own operator: the operator of the bucket before the blank one is dropped, and a blank first
      group leaves an operator at the start. */
  lemma BlankGroupIsSkipped(active: seq<Bucket>, groups: seq<string>, n: nat)
    requires |groups| == |active| && 0 < n < |active| && groups[n - 1] == "" && groups[n] != ""
    ensures PartsUpTo(active, groups, n) == PartsUpTo(active, groups, n - 1)
    ensures PartsUpTo(active, groups, n + 1) ==
      PartsUpTo(active, groups, n - 1) + [OperatorText(active[n - 1].operatorAfter), groups[n]]
  {
  }

  /** The same statement for a whole bucket list, in terms of its active buckets. */
  lemma TokensAlternate(buckets: seq<Bucket>)
    requires forall b :: b in buckets && IsActive(b) ==> Group(b) != ""
    ensures var active := Active(buckets);
      && (active == [] ==> Tokens(buckets) == [])
      && (active != [] ==> |Tokens(buckets)| == 2 * |active| - 1)
      && (forall k :: 0 <= k < |active| ==> Tokens(buckets)[2 * k] == Group(active[k]))
      && (forall k :: 0 <= k < |active| - 1 ==> Tokens(buckets)[2 * k + 1] == OperatorText(active[k].operatorAfter))
  {
    var active := Active(buckets);
    assert forall k :: 0 <= k < |active| ==> active[k] in active;
    PartsAlternate(active, Groups(active), |active|);
  }

  /** A single active bucket with a non-blank term renders as just its group. */
  lemma SingleActiveBucketIsItsGroup(buckets: seq<Bucket>, mode: OutputMode)
    requires |Active(buckets)| == 1
    requires Group(Active(buckets)[0]) != ""
    ensures BooleanString(buckets, mode) == Group(Active(buckets)[0])
  {
    var active := Active(buckets);
    assert PartsUpTo(active, Groups(active), 1) == [Group(active[0])];
  }

  /** The pretty output has one token per line: splitting it on line breaks gives the tokens back,
      when no token spans lines. The minified output joins the same tokens with single spaces. */
  lemma PrettyLinesAreTokens(buckets: seq<Bucket>)
    requires Tokens(buckets) != []
    requires forall k, i :: 0 <= k < |Tokens(buckets)| && 0 <= i < |Tokens(buckets)[k]| ==> Tokens(buckets)[k][i] != '\n'
    ensures Split(BooleanString(buckets, Pretty), {'\n'}) == Tokens(buckets)
    ensures BooleanString(buckets, Minified) == Join(Tokens(buckets), " ")
    ensures |BooleanString(buckets, Minified)| == |BooleanString(buckets, Pretty)|
    ensures forall i :: 0 <= i < |BooleanString(buckets, Pretty)| ==>
      BooleanString(buckets, Minified)[i] == (if BooleanString(buckets, Pretty)[i] == '\n' then ' ' else BooleanString(buckets, Pretty)[i])
  {
    SplitJoin(Tokens(buckets), '\n', {'\n'});
    JoinSwapSeparator(Tokens(buckets));
  }

  /** Joining with a space is joining with a line break and then turning every line break into a
      space, when no part holds a line break. */
  lemma {:induction false} JoinSwapSeparator(parts: seq<string>)
    requires forall k, i :: 0 <= k < |parts| && 0 <= i < |parts[k]| ==> parts[k][i] != '\n'
    ensures |Join(parts, " ")| == |Join(parts, "\n")|
    ensures forall i :: 0 <= i < |Join(parts, "\n")| ==>
      Join(parts, " ")[i] == (if Join(parts, "\n")[i] == '\n' then ' ' else Join(parts, "\n")[i])
  {
    if |parts| > 1 {
      JoinSwapSeparator(parts[1..]);
      var a, b := Join(parts, " "), Join(parts, "\n");
      var ra, rb := Join(parts[1..], " "), Join(parts[1..], "\n");
      assert a == parts[0] + " " + ra && b == parts[0] + "\n" + rb;
      forall i | 0 <= i < |b| ensures a[i] == (if b[i] == '\n' then ' ' else b[i]) {
        if i < |parts[0]| {
          assert a[i] == parts[0][i] && b[i] == parts[0][i];
        } else if i > |parts[0]| {
          assert a[i] == ra[i - |parts[0]| - 1] && b[i] == rb[i - |parts[0]| - 1];
        }
      }
    }
  }
}

/** Worked examples of the serializer on concrete bucket lists. */
module BooleanBuilderExamples {
  import opened Text
  import opened Types
  import opened BooleanBuilder

  /** A two-word phrase is quoted, the quoted phrase passes through, and a blank term vanishes. */
  lemma QuotingExamples()
    ensures FormatTerm(" a b ") == "\"a b\""
    ensures FormatTerm("\"a b\"") == "\"a b\""
    ensures FormatTerm("  \t ") == ""
  {
    var raw := " a b ";
    assert Trim(raw) == "a b" by {
      assert TrimStart(raw) == 1;
      assert TrimEnd(raw) == 4;
    }
    HasSpaceIff("a b");
    assert IsSpace("a b"[1]);
    var q := "\"a b\"";
    assert Trim(q) == q;
    assert IsQuoted(q) by { assert q[1..|q| - 1] == "a b"; }
    assert IsBlank("  \t ");
  }

  /** A single word: not empty, and no white space in it. */
  predicate PlainWord(w: string) {
    w != [] && forall i :: 0 <= i < |w| ==> !IsSpace(w[i])
  }

  /** A single word is its own formatted term. */
  lemma PlainWordUnchanged(w: string)
    requires PlainWord(w)
    ensures FormatTerm(w) == w
  {
    TrimNoop(w);
    HasSpaceIff(w);
  }

  lemma {:induction false} AllActive(bs: seq<Bucket>)
    requires forall k :: 0 <= k < |bs| ==> IsActive(bs[k])
    ensures Active(bs) == bs
  {
    if bs != [] {
      AllActive(bs[1..]);
      assert [bs[0]] + bs[1..] == bs;
    }
  }

  lemma GroupOfOne(b: Bucket)
    requires |b.terms| == 1 && PlainWord(b.terms[0].value)
    ensures Group(b) == "(" + b.terms[0].value + ")"
  {
    PlainWordUnchanged(b.terms[0].value);
    assert FormattedTerms(b.terms) == [b.terms[0].value];
  }

  lemma GroupOfTwo(b: Bucket)
    requires |b.terms| == 2 && PlainWord(b.terms[0].value) && PlainWord(b.terms[1].value)
    ensures Group(b) == "(" + b.terms[0].value + " OR " + b.terms[1].value + ")"
  {
    PlainWordUnchanged(b.terms[0].value);
    PlainWordUnchanged(b.terms[1].value);
    assert FormattedTerms(b.terms[1..]) == [b.terms[1].value];
    assert FormattedTerms(b.terms) == [b.terms[0].value, b.terms[1].value];
  }

  /** A worked example (titles, skills, exclusions), for any single words: the
      tokens are "(engineer)", "AND", "(React OR TypeScript)", "AND NOT", "(intern)" and their like. */
  lemma EndToEndExample(title: string, skill1: string, skill2: string, exclusion: string)
    requires PlainWord(title) && PlainWord(skill1) && PlainWord(skill2) && PlainWord(exclusion)
    ensures
      var titles := Bucket("bucket-1", "Titles", [Term("t1", title, Lavender)], true, And);
      var skills := Bucket("bucket-2", "Skills", [Term("t2", skill1, Lavender), Term("t3", skill2, Blue)], true, AndNot);
      var exclusions := Bucket("bucket-3", "Exclusions", [Term("t4", exclusion, Lavender)], true, And);
      Tokens([titles, skills, exclusions])
        == ["(" + title + ")", "AND", "(" + skill1 + " OR " + skill2 + ")", "AND NOT", "(" + exclusion + ")"]
  {
    var titles := Bucket("bucket-1", "Titles", [Term("t1", title, Lavender)], true, And);
    var skills := Bucket("bucket-2", "Skills", [Term("t2", skill1, Lavender), Term("t3", skill2, Blue)], true, AndNot);
    var exclusions := Bucket("bucket-3", "Exclusions", [Term("t4", exclusion, Lavender)], true, And);
    var bs := [titles, skills, exclusions];
    GroupOfOne(titles);
    GroupOfTwo(skills);
    GroupOfOne(exclusions);
    AllActive(bs);
    TokensAlternate(bs);
    var tokens := Tokens(bs);
    assert |tokens| == 5;
    assert tokens[0] == Group(bs[0]) && tokens[2] == Group(bs[1]) && tokens[4] == Group(bs[2]);
    assert tokens[1] == OperatorText(bs[0].operatorAfter) && tokens[3] == OperatorText(bs[1].operatorAfter);
  }

  lemma MiddleInactive(a: Bucket, b: Bucket, c: Bucket)
    requires IsActive(a) && !IsActive(b) && IsActive(c)
    ensures Active([a, b, c]) == [a, c]
  {
    assert [a, b, c][1..] == [b, c];
    assert [b, c][1..] == [c];
    assert [c][1..] == [];
  }

  /** A disabled middle bucket is skipped, and the operator of the bucket before it joins the
      buckets on either side: the tokens are "(x)", "AND", "(z)". */
  lemma DisabledBucketExample(x: string, y: string, z: string)
    requires PlainWord(x) && PlainWord(z)
    ensures
      var a := Bucket("bucket-1", "A", [Term("t1", x, Lavender)], true, And);
      var b := Bucket("bucket-2", "B", [Term("t2", y, Lavender)], false, Or);
      var c := Bucket("bucket-3", "C", [Term("t3", z, Lavender)], true, And);
      Tokens([a, b, c]) == ["(" + x + ")", "AND", "(" + z + ")"]
  {
    var a := Bucket("bucket-1", "A", [Term("t1", x, Lavender)], true, And);
    var b := Bucket("bucket-2", "B", [Term("t2", y, Lavender)], false, Or);
    var c := Bucket("bucket-3", "C", [Term("t3", z, Lavender)], true, And);
    MiddleInactive(a, b, c);
    GroupOfOne(a);
    GroupOfOne(c);
    AllActive([a, c]);
    TokensAlternate([a, c]);
  }

  /** When the first active bucket holds only blank terms its group is dropped, but the next
      group is still preceded by an operator, so the query begins with "OR". */
  lemma BlankFirstBucketExample(blank: string, x: string)
    requires IsBlank(blank) && PlainWord(x)
    ensures
      var first := Bucket("bucket-1", "Blank", [Term("t1", blank, Lavender)], true, Or);
      var second := Bucket("bucket-2", "A", [Term("t2", x, Lavender)], true, And);
      Tokens([first, second]) == ["OR", "(" + x + ")"]
  {
    var first := Bucket("bucket-1", "Blank", [Term("t1", blank, Lavender)], true, Or);
    var second := Bucket("bucket-2", "A", [Term("t2", x, Lavender)], true, And);
    FormattedTermsEmptyIffBlank(first.terms);
    assert Group(first) == "";
    GroupOfOne(second);
    AllActive([first, second]);
    var groups := Groups([first, second]);
    assert PartsUpTo([first, second], groups, 1) == [];
    assert PartsUpTo([first, second], groups, 2) == ["OR", Group(second)];
  }
}
