/** The JavaScript string operations the handlers rely on, over `seq<char>`:
    `indexOf`/`includes`, `startsWith`, `replace` with a string pattern,
    `split` on a one-character separator, and `trim`.
 */
module Strings {
  import opened Wrappers

  /** `pat` occurs in `s` starting at index `i`. */
  predicate OccursAt(s: string, pat: string, i: int) {
    0 <= i && i + |pat| <= |s| && s[i..i + |pat|] == pat
  }

  lemma OccursAtShift(s: string, pat: string, j: int)
    requires |s| > 0 && j >= 0
    ensures OccursAt(s, pat, j + 1) <==> OccursAt(s[1..], pat, j)
  {
    if 0 <= j && j + 1 + |pat| <= |s| {
      assert s[1..][j..j + |pat|] == s[j + 1..j + 1 + |pat|];
    }
  }

  /** `s.indexOf(pat)`: the first index at which `pat` occurs, or None for -1. */
  function IndexOf(s: string, pat: string): (r: Option<nat>)
    ensures r.Some? ==> OccursAt(s, pat, r.value)
    ensures r.Some? ==> forall j :: 0 <= j < r.value ==> !OccursAt(s, pat, j)
    ensures r.None? <==> forall j :: !OccursAt(s, pat, j)
    decreases |s|
  {
    if |pat| > |s| then None
    else if s[..|pat|] == pat then Some(0)
    else
      var rest := IndexOf(s[1..], pat);
      assert forall j :: j >= 0 ==> (OccursAt(s, pat, j + 1) <==> OccursAt(s[1..], pat, j)) by {
        forall j | j >= 0 ensures OccursAt(s, pat, j + 1) <==> OccursAt(s[1..], pat, j) {
          OccursAtShift(s, pat, j);
        }
      }
      assert !OccursAt(s, pat, 0);
      match rest
      case None =>
        assert forall j :: !OccursAt(s, pat, j) by {
          forall j ensures !OccursAt(s, pat, j) {
            if j >= 1 { assert !OccursAt(s[1..], pat, j - 1); }
          }
        }
        None
      case Some(k) =>
        assert forall j :: 0 <= j < k + 1 ==> !OccursAt(s, pat, j) by {
          forall j | 0 <= j < k + 1 ensures !OccursAt(s, pat, j) {
            if j >= 1 { assert !OccursAt(s[1..], pat, j - 1); }
          }
        }
        Some(k + 1)
  }

  /** `s.includes(pat)`. */
  predicate Contains(s: string, pat: string) {
    IndexOf(s, pat).Some?
  }

  /** `s.startsWith(prefix)`. */
  predicate StartsWith(s: string, prefix: string) {
    OccursAt(s, prefix, 0)
  }

  /** `s.replace(pat, rep)` with a string pattern: only the first occurrence is
      replaced, and `s` is returned unchanged when `pat` does not occur. */
  function ReplaceFirst(s: string, pat: string, rep: string): string {
    match IndexOf(s, pat)
    case None => s
    case Some(i) => s[..i] + rep + s[i + |pat|..]
  }

  /** Removing a string's own prefix leaves exactly the rest. */
  lemma ReplacePrefix(prefix: string, rest: string)
    ensures ReplaceFirst(prefix + rest, prefix, "") == rest
  {
    var s := prefix + rest;
    assert OccursAt(s, prefix, 0);
    assert IndexOf(s, prefix) == Some(0);
    assert s[|prefix|..] == rest;
  }

  /** `s.replace(pat, rep)` changes nothing when `pat` does not occur in `s`. */
  lemma ReplaceAbsent(s: string, pat: string, rep: string)
    requires !Contains(s, pat)
    ensures ReplaceFirst(s, pat, rep) == s
  {
  }

  /** The index of the first `c` in `s`. */
  function IndexOfChar(s: string, c: char): (i: nat)
    requires c in s
    ensures i < |s| && s[i] == c && c !in s[..i]
  {
    if s[0] == c then 0
    else
      var k := IndexOfChar(s[1..], c);
      assert s[..k + 1] == [s[0]] + s[1..][..k];
      k + 1
  }

  /** `s.split(sep)` for a one-character separator: the pieces between
      consecutive separators, from left to right; a string without the
      separator splits into itself alone. */
  function Split(s: string, sep: char): (parts: seq<string>)
    ensures |parts| >= 1
    ensures forall k :: 0 <= k < |parts| ==> sep !in parts[k]
    decreases |s|
  {
    if sep !in s then [s]
    else
      var i := IndexOfChar(s, sep);
      [s[..i]] + Split(s[i + 1..], sep)
  }

  /** `parts.join(sep)`. */
  function Join(parts: seq<string>, sep: char): string
    requires |parts| >= 1
  {
    if |parts| == 1 then parts[0] else parts[0] + [sep] + Join(parts[1..], sep)
  }

  /** Joining the pieces of a split restores the original string. */
  lemma {:induction false} JoinSplit(s: string, sep: char)
    ensures Join(Split(s, sep), sep) == s
    decreases |s|
  {
    if sep in s {
      var i := IndexOfChar(s, sep);
      var parts := Split(s, sep);
      JoinSplit(s[i + 1..], sep);
      assert parts[0] == s[..i] && parts[1..] == Split(s[i + 1..], sep);
      assert Join(parts, sep) == s[..i] + [sep] + Join(parts[1..], sep);
      assert s == s[..i] + [sep] + s[i + 1..];
    }
  }

  /** The first piece of `a + [sep] + b` is `a` when `a` has no separator. */
  lemma SplitCons(a: string, sep: char, b: string)
    requires sep !in a
    ensures Split(a + [sep] + b, sep) == [a] + Split(b, sep)
  {
    var s := a + [sep] + b;
    assert s[|a|] == sep;
    assert s[..|a|] == a;
    var i := IndexOfChar(s, sep);
    assert s[..i] == a;
    assert s[i + 1..] == b;
  }

  /** The first piece of `a + b` is `a` when `a` has no separator and `b`
      is empty or starts with one. */
  lemma SplitHead(a: string, sep: char, b: string)
    requires sep !in a && (b == [] || b[0] == sep)
    ensures Split(a + b, sep)[0] == a
  {
    if b == [] {
      assert a + b == a;
    } else {
      assert a + b == a + [sep] + b[1..];
      SplitCons(a, sep, b[1..]);
    }
  }

  /** Splitting a join of separator-free pieces gives the pieces back. */
  lemma {:induction false} SplitJoin(parts: seq<string>, sep: char)
    requires |parts| >= 1
    requires forall k :: 0 <= k < |parts| ==> sep !in parts[k]
    ensures Split(Join(parts, sep), sep) == parts
    decreases |parts|
  {
    if |parts| > 1 {
      SplitJoin(parts[1..], sep);
      SplitCons(parts[0], sep, Join(parts[1..], sep));
      assert parts == [parts[0]] + parts[1..];
    }
  }

  /** The last element of a non-empty sequence (`Array.prototype.pop`'s result). */
  function Last<T>(xs: seq<T>): T
    requires |xs| >= 1
  {
    xs[|xs| - 1]
  }

  /** A join of two or more pieces ends with the separator and the last piece. */
  lemma {:induction false} JoinLast(parts: seq<string>, sep: char)
    requires |parts| >= 2
    ensures Join(parts, sep) == Join(parts[..|parts| - 1], sep) + [sep] + Last(parts)
    decreases |parts|
  {
    if |parts| > 2 {
      JoinLast(parts[1..], sep);
      assert parts[1..][..|parts| - 2] == parts[..|parts| - 1][1..];
    }
  }

  /** The piece after the last separator: the whole string when there is no
      separator; otherwise a separator-free tail that follows a separator. */
  lemma LastPiece(s: string, sep: char)
    ensures sep !in Last(Split(s, sep))
    ensures sep !in s ==> Last(Split(s, sep)) == s
    ensures sep in s ==> exists stem :: s == stem + [sep] + Last(Split(s, sep))
  {
    var parts := Split(s, sep);
    if sep in s {
      var i := IndexOfChar(s, sep);
      assert |parts| >= 2;
      JoinSplit(s, sep);
      JoinLast(parts, sep);
      var stem := Join(parts[..|parts| - 1], sep);
      assert s == stem + [sep] + Last(parts);
    }
  }

  /** The characters `String.prototype.trim` removes: ECMAScript WhiteSpace
      and LineTerminator code points. */
  predicate IsWhiteSpace(c: char) {
    || c == ' ' || c == '\t' || c == '\n' || c == '\r'
    || c == '\U{000B}' || c == '\U{000C}' || c == '\U{00A0}' || c == '\U{FEFF}'
    || c == '\U{1680}' || ('\U{2000}' <= c <= '\U{200A}')
    || c == '\U{2028}' || c == '\U{2029}' || c == '\U{202F}' || c == '\U{205F}'
    || c == '\U{3000}'
  }

  /** Every character of `s` is white space (vacuously true of ""). */
  predicate IsBlank(s: string) {
    forall i :: 0 <= i < |s| ==> IsWhiteSpace(s[i])
  }

  /** `s` without its leading white space. */
  function TrimStart(s: string): (r: string)
    ensures |r| <= |s| && r == s[|s| - |r|..]
    ensures forall i :: 0 <= i < |s| - |r| ==> IsWhiteSpace(s[i])
    ensures |r| > 0 ==> !IsWhiteSpace(r[0])
    decreases |s|
  {
    if |s| > 0 && IsWhiteSpace(s[0]) then TrimStart(s[1..]) else s
  }

  /** `s` without its trailing white space. */
  function TrimEnd(s: string): (r: string)
    ensures |r| <= |s| && r == s[..|r|]
    ensures forall i :: |r| <= i < |s| ==> IsWhiteSpace(s[i])
    ensures |r| > 0 ==> !IsWhiteSpace(r[|r| - 1])
    decreases |s|
  {
    if |s| > 0 && IsWhiteSpace(s[|s| - 1]) then TrimEnd(s[..|s| - 1]) else s
  }

  /** `s.trim()`. */
  function Trim(s: string): string {
    TrimEnd(TrimStart(s))
  }

  /** `s.trim()` is the empty string exactly when `s` is blank. */
  lemma TrimEmptyIffBlank(s: string)
    ensures Trim(s) == "" <==> IsBlank(s)
  {
    var t := TrimStart(s);
    if Trim(s) == "" {
      assert |t| == 0;
    } else if |t| > 0 {
      assert t[0] == s[|s| - |t|];
    }
  }

  /** `s.toUpperCase()` restricted to ASCII: lower-case Latin letters become
      upper-case, every other character is kept. */
  function ToUpperAscii(s: string): (r: string)
    ensures |r| == |s|
    ensures forall i :: 0 <= i < |s| ==> r[i] == UpperAscii(s[i])
  {
    if |s| == 0 then "" else [UpperAscii(s[0])] + ToUpperAscii(s[1..])
  }

  function UpperAscii(c: char): char {
    if 'a' <= c <= 'z' then (c as int - 32) as char else c
  }
}
