/** The JavaScript string and array built-ins the backend uses:
    `String.prototype.includes`/`indexOf`, `String.prototype.split` with a
    non-empty string separator, and `Array.prototype.join`. */
module Strings {
  import opened Js

  /** `m` occurs in `s` starting at index `i`. */
  predicate MatchAt(s: string, m: string, i: nat) {
    i <= |s| && m <= s[i..]
  }

  /** `s.indexOf(m)` for a non-empty `m`: the first index at which `m`
      occurs, or None where JavaScript gives -1. */
  function IndexOf(s: string, m: string): (r: Option<nat>)
    requires |m| > 0
    ensures r.Some? ==> MatchAt(s, m, r.value)
    ensures r.Some? ==> forall j :: 0 <= j < r.value ==> !MatchAt(s, m, j)
    ensures r.None? ==> forall j :: 0 <= j <= |s| ==> !MatchAt(s, m, j)
    decreases |s|
  {
    if |s| < |m| then None
    else if m <= s then Some(0)
    else
      var tail := IndexOf(s[1..], m);
      ShiftMatch(s, m);
      match tail
      case None => None
      case Some(j) => Some(j + 1)
  }

  /** A match at a positive index `j` in `s` is a match at `j - 1` in `s[1..]`,
      and a match at 0 is a prefix. */
  lemma ShiftMatch(s: string, m: string)
    requires |s| > 0
    ensures MatchAt(s, m, 0) == (m <= s)
    ensures forall j: nat :: 0 < j ==> MatchAt(s, m, j) == MatchAt(s[1..], m, j - 1)
  {
    assert s[0..] == s;
    forall j: nat | 0 < j
      ensures MatchAt(s, m, j) == MatchAt(s[1..], m, j - 1)
    {
      if j <= |s| {
        assert s[1..][j - 1..] == s[j..];
      }
    }
  }

  /** A match at index `j >= k` in `s` is a match at `j - k` in `s[k..]`. */
  lemma MatchInSuffix(s: string, m: string, k: nat)
    requires k <= |s|
    ensures forall j: nat :: k <= j ==> MatchAt(s, m, j) == MatchAt(s[k..], m, j - k)
  {
    forall j: nat | k <= j
      ensures MatchAt(s, m, j) == MatchAt(s[k..], m, j - k)
    {
      if j <= |s| {
        assert s[k..][j - k..] == s[j..];
      }
    }
  }

  /** `s.includes(m)` for a non-empty `m`. */
  predicate Includes(s: string, m: string)
    requires |m| > 0
  {
    IndexOf(s, m).Some?
  }

  /** `includes` holds exactly when the text occurs at some index. */
  lemma IncludesIff(s: string, m: string)
    requires |m| > 0
    ensures Includes(s, m) <==> exists j :: 0 <= j <= |s| && MatchAt(s, m, j)
  {
    if Includes(s, m) {
      assert MatchAt(s, m, IndexOf(s, m).value);
    }
  }

  /** Any occurrence makes `includes` true, and `indexOf` finds the first. */
  lemma IndexOfFirst(s: string, m: string, i: nat)
    requires |m| > 0
    requires MatchAt(s, m, i)
    requires forall j :: 0 <= j < i ==> !MatchAt(s, m, j)
    ensures IndexOf(s, m) == Some(i)
  {
  }

  /** `s.split(sep)` for a non-empty separator: the pieces between the
      non-overlapping occurrences of `sep`, found left to right. */
  function Split(s: string, sep: string): (parts: seq<string>)
    requires |sep| > 0
    ensures |parts| >= 1
    ensures |parts| >= 2 <==> Includes(s, sep)
    ensures parts[0] <= s
    decreases |s|
  {
    match IndexOf(s, sep)
    case None => [s]
    case Some(i) => [s[..i]] + Split(s[i + |sep|..], sep)
  }

  /** `xs.join(sep)`: "" for no pieces, and otherwise it starts with the
      first piece. */
  function Join(xs: seq<string>, sep: string): (r: string)
    ensures |xs| == 0 ==> r == ""
    ensures |xs| > 0 ==> xs[0] <= r
  {
    if |xs| == 0 then ""
    else if |xs| == 1 then xs[0]
    else xs[0] + sep + Join(xs[1..], sep)
  }

  /** Total number of characters in `xs`. */
  function TotalLength(xs: seq<string>): (n: nat)
  {
    if |xs| == 0 then 0 else |xs[0]| + TotalLength(xs[1..])
  }

  /** Joining adds exactly one separator between neighbours and nothing else. */
  lemma {:induction false} JoinLength(xs: seq<string>, sep: string)
    ensures |xs| == 0 ==> Join(xs, sep) == ""
    ensures |xs| > 0 ==> |Join(xs, sep)| == TotalLength(xs) + (|xs| - 1) * |sep|
  {
    if |xs| > 1 {
      JoinLength(xs[1..], sep);
    }
  }

  /** For a one-character separator, `MatchAt` is a character test. */
  lemma CharMatch(s: string, c: char)
    ensures forall j: nat :: MatchAt(s, [c], j) == (j < |s| && s[j] == c)
  {
    forall j: nat
      ensures MatchAt(s, [c], j) == (j < |s| && s[j] == c)
    {
      if j < |s| && s[j] == c {
        assert [c] <= s[j..];
      }
    }
  }

  /** No occurrence of `m` starts before `i` when its first character does
      not appear there. */
  lemma FirstCharAbsent(s: string, m: string, i: nat)
    requires |m| > 0 && i <= |s|
    requires m[0] !in s[..i]
    ensures forall j :: 0 <= j < i ==> !MatchAt(s, m, j)
  {
    forall j | 0 <= j < i
      ensures !MatchAt(s, m, j)
    {
      assert s[j..][0] == s[..i][j];
    }
  }

  /** The first occurrence of `c` in `x + [c] + rest` is right after `x`
      when `x` does not contain `c`. */
  lemma IndexOfAfterPiece(x: string, c: char, rest: string)
    requires c !in x
    ensures IndexOf(x + [c] + rest, [c]) == Some(|x|)
  {
    var s := x + [c] + rest;
    CharMatch(s, c);
    forall j | 0 <= j < |x|
      ensures !MatchAt(s, [c], j)
    {
      assert s[j] == x[j];
    }
    IndexOfFirst(s, [c], |x|);
  }

  /** Splitting `x + [c] + rest` on `c`, where `x` holds no `c`, gives `x`
      and then the pieces of `rest`. */
  lemma SplitAfterPiece(x: string, c: char, rest: string)
    requires c !in x
    ensures Split(x + [c] + rest, [c]) == [x] + Split(rest, [c])
  {
    var s := x + [c] + rest;
    IndexOfAfterPiece(x, c, rest);
    assert s[..|x|] == x;
    assert s[|x| + 1..] == rest;
  }

  /** A text without the separator character splits into itself alone. */
  lemma SplitWithoutSeparator(s: string, c: char)
    requires c !in s
    ensures Split(s, [c]) == [s]
  {
    CharMatch(s, c);
    assert IndexOf(s, [c]).None?;
  }

  /** Splitting on a character that no piece contains recovers the pieces of
      a join on that character, in order. */
  lemma {:induction false} SplitJoin(xs: seq<string>, c: char)
    requires |xs| >= 1
    requires forall i :: 0 <= i < |xs| ==> c !in xs[i]
    ensures Split(Join(xs, [c]), [c]) == xs
  {
    if |xs| == 1 {
      assert Join(xs, [c]) == xs[0];
      SplitWithoutSeparator(xs[0], c);
    } else {
      var rest := Join(xs[1..], [c]);
      assert Join(xs, [c]) == xs[0] + [c] + rest;
      SplitAfterPiece(xs[0], c, rest);
      SplitJoin(xs[1..], c);
      assert xs == [xs[0]] + xs[1..];
    }
  }
}
