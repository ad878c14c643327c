/** The JavaScript string operations the boolean builder relies on, over `string` (= `seq<char>`):
    `trim`, the `\s` class, `join`, `split`, `includes`, `toLowerCase` and decimal rendering. */
module Text {

  /** ECMAScript white space and line terminators: what `String.prototype.trim` strips and what
      the regular-expression class `\s` matches. */
  predicate IsSpace(c: char) {
    || c == ' ' || c == '\t' || c == '\n' || c == '\r' || c == '\U{B}' || c == '\U{C}'
    || c == '\U{A0}' || c == '\U{1680}' || c == '\U{2028}' || c == '\U{2029}' || c == '\U{202F}'
    || c == '\U{205F}' || c == '\U{3000}' || c == '\U{FEFF}'
    || '\U{2000}' <= c <= '\U{200A}'
  }

  /** The line terminators, the characters a regular-expression `.` does not match. */
  predicate IsLineTerminator(c: char) {
    c == '\n' || c == '\r' || c == '\U{2028}' || c == '\U{2029}'
  }

  lemma LineTerminatorIsSpace(c: char)
    requires IsLineTerminator(c)
    ensures IsSpace(c)
  {
  }

  /** The index of the first non-space character of `s` at or after `i` (`|s|` when none). */
  function SkipSpaceForward(s: string, i: nat): (k: nat)
    requires i <= |s|
    ensures i <= k <= |s|
    ensures k == |s| || !IsSpace(s[k])
    ensures forall j :: i <= j < k ==> IsSpace(s[j])
    decreases |s| - i
  {
    if i < |s| && IsSpace(s[i]) then SkipSpaceForward(s, i + 1) else i
  }

  /** The end of `s[lo..j]` once its trailing white space is dropped. */
  function SkipSpaceBackward(s: string, lo: nat, j: nat): (k: nat)
    requires lo <= j <= |s|
    ensures lo <= k <= j
    ensures k == lo || !IsSpace(s[k - 1])
    ensures forall m :: k <= m < j ==> IsSpace(s[m])
  {
    if lo < j && IsSpace(s[j - 1]) then SkipSpaceBackward(s, lo, j - 1) else j
  }

  /** Where the trimmed piece of `s` starts. */
  function TrimStart(s: string): (k: nat)
    ensures k <= |s|
  {
    SkipSpaceForward(s, 0)
  }

  /** Where the trimmed piece of `s` ends. */
  function TrimEnd(s: string): (k: nat)
    ensures TrimStart(s) <= k <= |s|
  {
    SkipSpaceBackward(s, TrimStart(s), |s|)
  }

  /** `String.prototype.trim`. */
  function Trim(s: string): (r: string)
  {
    s[TrimStart(s)..TrimEnd(s)]
  }

  /** True when `s` consists of white space only (JavaScript `!s.trim()`). */
  predicate IsBlank(s: string) {
    forall i :: 0 <= i < |s| ==> IsSpace(s[i])
  }

  /** `Trim` keeps a contiguous middle piece of its input, starting and ending with a non-space,
      and drops only white space around it. */
  lemma TrimShape(s: string)
    ensures Trim(s) == [] || (!IsSpace(Trim(s)[0]) && !IsSpace(Trim(s)[|Trim(s)| - 1]))
    ensures forall i :: 0 <= i < TrimStart(s) ==> IsSpace(s[i])
    ensures forall i :: TrimEnd(s) <= i < |s| ==> IsSpace(s[i])
  {
  }

  /** The trim is empty exactly for blank input. */
  lemma TrimEmptyIffBlank(s: string)
    ensures Trim(s) == [] <==> IsBlank(s)
  {
    var a, b := TrimStart(s), TrimEnd(s);
    if a == b {
      forall i | 0 <= i < |s| ensures IsSpace(s[i]) {
        if i >= a { assert b <= i; }
      }
    } else {
      assert !IsSpace(s[a]);
    }
  }

  /** A string that already begins and ends with a non-space is its own trim. */
  lemma TrimNoop(s: string)
    requires s == [] || (!IsSpace(s[0]) && !IsSpace(s[|s| - 1]))
    ensures Trim(s) == s
  {
  }

  lemma TrimIdempotent(s: string)
    ensures Trim(Trim(s)) == Trim(s)
  {
    TrimShape(s);
    TrimNoop(Trim(s));
  }

  /** JavaScript `/\s/.test(s)`. */
  predicate HasSpace(s: string) {
    HasSpaceFrom(s, 0)
  }

  /** Some character of `s` at or after index `i` is white space. */
  predicate HasSpaceFrom(s: string, i: nat)
    requires i <= |s|
    decreases |s| - i
  {
    i < |s| && (IsSpace(s[i]) || HasSpaceFrom(s, i + 1))
  }

  lemma {:induction false} HasSpaceFromIff(s: string, i: nat)
    requires i <= |s|
    ensures HasSpaceFrom(s, i) <==> exists j :: i <= j < |s| && IsSpace(s[j])
    decreases |s| - i
  {
    if i < |s| {
      HasSpaceFromIff(s, i + 1);
    }
  }

  /** `HasSpace` holds exactly when some character is white space. */
  lemma HasSpaceIff(s: string)
    ensures HasSpace(s) <==> exists i :: 0 <= i < |s| && IsSpace(s[i])
  {
    HasSpaceFromIff(s, 0);
  }

  /** True when no character of `s` is a line terminator. */
  predicate SingleLine(s: string) {
    forall i :: 0 <= i < |s| ==> !IsLineTerminator(s[i])
  }

  /** `Array.prototype.join(sep)` on a list of strings. */
  function Join(parts: seq<string>, sep: string): (r: string)
    ensures |parts| == 1 ==> r == parts[0]
  {
    if |parts| == 0 then ""
    else if |parts| == 1 then parts[0]
    else parts[0] + sep + Join(parts[1..], sep)
  }

  /** `String.prototype.split` on a regular expression matching exactly the characters in `seps`:
      every separator ends a piece, so `n` separators give `n + 1` pieces, none of them holding a
      separator. */
  function Split(s: string, seps: set<char>): (r: seq<string>)
    ensures |r| >= 1
    ensures forall k, i :: 0 <= k < |r| && 0 <= i < |r[k]| ==> r[k][i] !in seps
  {
    if s == [] then [""]
    else if s[0] in seps then [""] + Split(s[1..], seps)
    else
      var rest := Split(s[1..], seps);
      [[s[0]] + rest[0]] + rest[1..]
  }

  lemma {:induction false} SplitAfterPiece(p: string, c: char, t: string, seps: set<char>)
    requires c in seps
    requires forall i :: 0 <= i < |p| ==> p[i] !in seps
    ensures Split(p + [c] + t, seps) == [p] + Split(t, seps)
  {
    if p == [] {
      assert p + [c] + t == [c] + t;
      assert ([c] + t)[1..] == t;
    } else {
      var s := p + [c] + t;
      assert s[1..] == p[1..] + [c] + t;
      SplitAfterPiece(p[1..], c, t, seps);
      assert [p[0]] + p[1..] == p;
    }
  }

  lemma {:induction false} SplitWithoutSeparator(p: string, seps: set<char>)
    requires forall i :: 0 <= i < |p| ==> p[i] !in seps
    ensures Split(p, seps) == [p]
  {
    if p != [] {
      SplitWithoutSeparator(p[1..], seps);
      assert [p[0]] + p[1..] == p;
    }
  }

  /** Splitting on a set of separators undoes joining with one of them, when no part contains a
      separator. */
  lemma {:induction false} SplitJoin(parts: seq<string>, c: char, seps: set<char>)
    requires |parts| >= 1 && c in seps
    requires forall k, i :: 0 <= k < |parts| && 0 <= i < |parts[k]| ==> parts[k][i] !in seps
    ensures Split(Join(parts, [c]), seps) == parts
  {
    if |parts| == 1 {
      SplitWithoutSeparator(parts[0], seps);
    } else {
      SplitJoin(parts[1..], c, seps);
      SplitAfterPiece(parts[0], c, Join(parts[1..], [c]), seps);
      assert [parts[0]] + parts[1..] == parts;
    }
  }

  /** Joining at least two parts puts the separator right after the first part. */
  lemma JoinHasSeparator(parts: seq<string>, c: char)
    requires |parts| >= 2
    ensures |parts[0]| < |Join(parts, [c])| && Join(parts, [c])[|parts[0]|] == c
  {
  }

  /** JavaScript `s.includes(sub)`. */
  predicate Contains(s: string, sub: string) {
    exists i :: 0 <= i <= |s| - |sub| && OccursAt(s, sub, i)
  }

  /** A one-character string occurs exactly where that character does. */
  lemma ContainsChar(s: string, c: char)
    ensures Contains(s, [c]) <==> exists i :: 0 <= i < |s| && s[i] == c
  {
    if exists i :: 0 <= i < |s| && s[i] == c {
      var i :| 0 <= i < |s| && s[i] == c;
      assert OccursAt(s, [c], i);
    }
    if Contains(s, [c]) {
      var i :| 0 <= i <= |s| - 1 && OccursAt(s, [c], i);
      assert s[i..i + 1][0] == s[i];
    }
  }

  /** `sub` occurs in `s` starting at index `i`. */
  predicate OccursAt(s: string, sub: string, i: int) {
    0 <= i <= |s| - |sub| && s[i..i + |sub|] == sub
  }

  /** `toLowerCase` on one character, for the ASCII letters. */
  function LowerChar(c: char): char {
    if 'A' <= c <= 'Z' then (c as int + 32) as char else c
  }

  /** `String.prototype.toLowerCase`, for the ASCII letters. */
  function ToLower(s: string): (r: string)
    ensures |r| == |s|
    ensures forall i :: 0 <= i < |s| ==> r[i] == LowerChar(s[i])
  {
    seq(|s|, i requires 0 <= i < |s| => LowerChar(s[i]))
  }

  /** The decimal digit character for `d`. */
  function DigitChar(d: nat): (c: char)
    requires d < 10
    ensures '0' <= c <= '9' && DigitValue(c) == d
  {
    ('0' as int + d) as char
  }

  /** The value of a decimal digit character. */
  function DigitValue(c: char): int {
    c as int - '0' as int
  }

  /** The number a string of decimal digits denotes, read most significant digit first. */
  function DecimalValue(s: string): int {
    if s == [] then 0 else 10 * DecimalValue(s[..|s| - 1]) + DigitValue(s[|s| - 1])
  }

  /** The decimal rendering of `n`, as a template literal `${n}` writes it: digits with no
      leading zero whose decimal value is `n`. */
  function NatToString(n: nat): (r: string)
    ensures |r| >= 1
    ensures forall i :: 0 <= i < |r| ==> '0' <= r[i] <= '9'
    ensures r[0] == '0' ==> n == 0 && r == "0"
    ensures n < 10 ==> r == [DigitChar(n)]
    ensures DecimalValue(r) == n
  {
    if n < 10 then [DigitChar(n)]
    else
      var r := NatToString(n / 10) + [DigitChar(n % 10)];
      assert r[..|r| - 1] == NatToString(n / 10);
      r
  }

  /** Different numbers render differently. */
  lemma NatToStringInjective(m: nat, n: nat)
    ensures NatToString(m) == NatToString(n) <==> m == n
  {
  }
}
